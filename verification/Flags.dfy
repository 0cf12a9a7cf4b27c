/**
 The scanners as the program runs them: index loops over the argument vector,
 each proved to compute its specification.
 */
module Flags {
  import opened Wrappers
  import opened FlagScan
  import opened Sequences
  import CaDecision

  /** Find the path given with `--config`, before anything else is known. */
  method ExtractConfigPath(voc: Vocabulary, args: seq<string>) returns (r: Option<Option<string>>)
    ensures r == Extract(voc, args)
  {
    var i := 0;
    while i < |args|
      invariant 0 <= i
      invariant Extract(voc, Drop(args, i)) == Extract(voc, args)
    {
      assert Drop(args, i)[0] == args[i];
      if args[i] == "--config" {
        return Some(if i + 1 < |args| then Some(args[i + 1]) else None);
      }
      assert Drop(Drop(args, i), 2) == Drop(args, i + 2);
      assert Drop(args, i)[1..] == Drop(args, i + 1);
      if voc.extractTakesValue(args[i]) {
        i := i + 1;
      }
      i := i + 1;
    }
    r := None;
  }

  /** Remove the global flags and their operands, leaving the command. */
  method CleanArgs(voc: Vocabulary, args: seq<string>) returns (result: seq<string>)
    ensures result == Clean(voc, args, false)
  {
    hide Clean, CleanKind, WidthAt, IsCommand;
    result := [];
    var skipNext := false;
    var i := 0;
    var seenCommand := false;
    ghost var unit := 0;
    while i < |args|
      invariant 0 <= i && unit == if skipNext then i + 1 else i
      invariant result + Clean(voc, Drop(args, unit), seenCommand) == Clean(voc, args, false)
    {
      if skipNext {
        skipNext := false;
        i := i + 1;
      } else if CleanKind(voc, args[i]) != Word {
        PassFlagAt(voc, args, i, seenCommand);
        unit := i + WidthAt(voc, args, i, seenCommand, CleanKind(voc, args[i]));
        i, skipNext := PassFlag(voc, args, i, seenCommand);
      } else {
        KeepWordAt(voc, args, i, seenCommand, result);
        seenCommand := seenCommand || IsCommand(voc, args[i]);
        result := result + [args[i]];
        i := i + 1;
        unit := i;
      }
    }
    NothingCleans(voc, Drop(args, unit), seenCommand);
  }

  lemma NothingCleans(voc: Vocabulary, args: seq<string>, seen: bool)
    requires args == []
    ensures Clean(voc, args, seen) == []
  {
  }

  /** Pass over the flag at `i`: where to go on, and whether to skip one more argument there. */
  method PassFlag(voc: Vocabulary, args: seq<string>, i: nat, seen: bool) returns (next: nat, skipNext: bool)
    requires i < |args| && CleanKind(voc, args[i]) != Word
    ensures i < next
    ensures (if skipNext then next + 1 else next) == i + WidthAt(voc, args, i, seen, CleanKind(voc, args[i]))
  {
    next, skipNext := i + 1, false;
    match CleanKind(voc, args[i])
    case Value =>
      skipNext := true;
    case Restore =>
      if !seen && NextNamesRestore(voc, args, i) {
        next := next + 1;
      }
    case Bool =>
      if NextIsBool(args, i) {
        next := next + 1;
      }
    case _ =>
  }

  predicate NextNamesRestore(voc: Vocabulary, args: seq<string>, i: nat) {
    i + 1 < |args| && !StartsWithDash(args[i + 1]) && !voc.isTopLevelCommand(args[i + 1])
  }

  predicate NextIsBool(args: seq<string>, i: nat) {
    i + 1 < |args| && IsBoolWord(args[i + 1])
  }

  function WidthAt(voc: Vocabulary, args: seq<string>, i: nat, seen: bool, kind: Kind): nat {
    match kind
    case Value => 2
    case Config => 2
    case Restore => if !seen && NextNamesRestore(voc, args, i) then 2 else 1
    case Bool => if NextIsBool(args, i) then 2 else 1
    case _ => 1
  }

  lemma CleanWidthAt(voc: Vocabulary, args: seq<string>, i: nat, seen: bool)
    requires i < |args|
    ensures Drop(args, i) != [] && Drop(args, i)[0] == args[i]
    ensures CleanWidth(voc, Drop(args, i), seen) == WidthAt(voc, args, i, seen, CleanKind(voc, args[i]))
  {
    var rest := Drop(args, i);
    assert rest[0] == args[i] && (|rest| > 1 ==> rest[1] == args[i + 1]);
  }

  lemma PassFlagAt(voc: Vocabulary, args: seq<string>, i: nat, seen: bool)
    requires i < |args| && CleanKind(voc, args[i]) != Word
    ensures Clean(voc, Drop(args, i), seen) ==
      Clean(voc, Drop(args, i + WidthAt(voc, args, i, seen, CleanKind(voc, args[i]))), seen)
  {
    CleanWidthAt(voc, args, i, seen);
    hide Clean, CleanKind, CleanWidth, WidthAt, IsCommand;
    var rest := Drop(args, i);
    var w := CleanWidth(voc, rest, seen);
    assert Drop(rest, w) == Drop(args, i + w);
    CleanUnfold(voc, rest, seen, Drop(args, i + w));
  }

  lemma KeepWordAt(voc: Vocabulary, args: seq<string>, i: nat, seen: bool, done: seq<string>)
    requires i < |args| && CleanKind(voc, args[i]) == Word
    ensures done + Clean(voc, Drop(args, i), seen) ==
      (done + [args[i]]) + Clean(voc, Drop(args, i + 1), seen || IsCommand(voc, args[i]))
  {
    CleanWidthAt(voc, args, i, seen);
    hide Clean, CleanKind, CleanWidth, IsCommand;
    var rest := Drop(args, i);
    assert Drop(rest, 1) == Drop(args, i + 1);
    CleanUnfold(voc, rest, seen, Drop(args, i + 1));
    ConcatIsAssociative(done, [args[i]], Clean(voc, Drop(args, i + 1), seen || IsCommand(voc, args[i])));
  }

  function SettingsAt(voc: Vocabulary, args: seq<string>, i: nat, seen: bool, kind: Kind): seq<Setting>
    requires i < |args|
  {
    match kind
    case RestoreWith =>
      [if TrimPrefix(args[i], RESTORE_PREFIX) == "" then RestoreSession
       else RestoreNamed(TrimPrefix(args[i], RESTORE_PREFIX))]
    case Value => if i + 1 < |args| then [Text(args[i], args[i + 1])] else []
    case Restore => [if !seen && NextNamesRestore(voc, args, i) then RestoreNamed(args[i + 1]) else RestoreSession]
    case Bool => [Switch(args[i], !(NextIsBool(args, i) && args[i + 1] == "false"))]
    case Marker => [Mark(args[i])]
    case _ => []
  }

  lemma UnitByPosition(voc: Vocabulary, args: seq<string>, i: nat, seen: bool)
    requires i < |args|
    ensures var kind := ApplyKind(voc, args[i]); var rest := Drop(args, i);
      && rest != [] && rest[0] == args[i]
      && FlagScan.ApplyUnit(voc, rest, seen) == SettingsAt(voc, args, i, seen, kind)
      && ApplyWidth(voc, rest, seen) == WidthAt(voc, args, i, seen, kind)
      && Drop(rest, ApplyWidth(voc, rest, seen)) == Drop(args, i + WidthAt(voc, args, i, seen, kind))
  {
    var rest := Drop(args, i);
    assert rest[0] == args[i] && (|rest| > 1 ==> rest[1] == args[i + 1]);
  }

  /** The setting made by the unit at `i`, if any, and the arguments it takes:
      those of the unit at the head of what is left of the line. */
  method ReadUnit(voc: Vocabulary, args: seq<string>, i: nat, seen: bool) returns (setting: Option<Setting>, w: nat)
    requires i < |args|
    ensures w == ApplyWidth(voc, Drop(args, i), seen)
    ensures FlagScan.ApplyUnit(voc, Drop(args, i), seen) == if setting.Some? then [setting.value] else []
  {
    UnitByPosition(voc, args, i, seen);
    hide FlagScan.ApplyUnit, ApplyWidth, ApplyKind;
    var arg := args[i];
    var kind := ApplyKind(voc, arg);
    setting := None;
    w := 1;
    match kind
    case RestoreWith =>
      var name := TrimPrefix(arg, RESTORE_PREFIX);
      setting := Some(if name == "" then RestoreSession else RestoreNamed(name));
    case Value =>
      if i + 1 < |args| {
        setting := Some(Text(arg, args[i + 1]));
      }
      w := 2;
    case Config =>
      w := 2;
    case Restore =>
      if !seen && NextNamesRestore(voc, args, i) {
        setting := Some(RestoreNamed(args[i + 1]));
        w := 2;
      } else {
        setting := Some(RestoreSession);
      }
    case Bool =>
      if NextIsBool(args, i) {
        setting := Some(Switch(arg, args[i + 1] != "false"));
        w := 2;
      } else {
        setting := Some(Switch(arg, true));
      }
    case Marker =>
      setting := Some(Mark(arg));
    case Word =>
  }

  /** The unit the applying loop finds at `i`: its settings, its width, and the rest. */
  lemma ApplyUnitAt(voc: Vocabulary, args: seq<string>, i: nat, seenBefore: bool, seen: bool,
                    settings: seq<Setting>, w: nat)
    requires i < |args| && seen == (seenBefore || IsCommand(voc, args[i]))
    requires settings == FlagScan.ApplyUnit(voc, Drop(args, i), seen) && w == ApplyWidth(voc, Drop(args, i), seen)
    ensures Apply(voc, Drop(args, i), seenBefore) == settings + Apply(voc, Drop(args, i + w), seen)
  {
    UnitByPosition(voc, args, i, seen);
    hide FlagScan.ApplyUnit, ApplyWidth, ApplyKind;
    ApplyUnfold(voc, Drop(args, i), seenBefore, Drop(args, i + w));
  }

  /** The three restore fields, and the effect of settings on them. */
  datatype Restoring = Restoring(name: Option<string>, usesSession: bool, explicit: bool)

  function ApplyRestore(r: Restoring, x: Setting): Restoring {
    match x
    case RestoreNamed(name) => Restoring(Some(name), false, true)
    case RestoreSession => r.(usesSession := true, explicit := true)
    case _ => r
  }

  function ApplyAllRestore(r: Restoring, xs: seq<Setting>): Restoring
    decreases |xs|
  {
    if xs == [] then r else ApplyAllRestore(ApplyRestore(r, xs[0]), xs[1..])
  }

  lemma {:induction false} RestoreConcatenates(r: Restoring, xs: seq<Setting>, ys: seq<Setting>)
    ensures ApplyAllRestore(r, xs + ys) == ApplyAllRestore(ApplyAllRestore(r, xs), ys)
    decreases |xs|
  {
    if xs == [] {
      assert xs + ys == ys;
    } else {
      assert (xs + ys)[1..] == xs[1..] + ys;
      RestoreConcatenates(ApplyRestore(r, xs[0]), xs[1..], ys);
    }
  }

  /** Where the last setting that concerns restoring stands, it alone decides what is
      restored; a session's own state is restored beside any name kept from before. */
  lemma LastRestoreDecides(r: Restoring, xs: seq<Setting>, x: Setting, ys: seq<Setting>)
    requires forall y | y in ys :: !y.RestoreNamed? && !y.RestoreSession?
    ensures ApplyAllRestore(r, ys) == r
    ensures var after := ApplyAllRestore(r, xs + [x] + ys);
      match x
      case RestoreNamed(name) => after.name == Some(name) && !after.usesSession && after.explicit
      case RestoreSession =>
        after.name == ApplyAllRestore(r, xs).name && after.usesSession && after.explicit
      case _ => after == ApplyAllRestore(r, xs)
  {
    RestoreConcatenates(r, xs + [x], ys);
    RestoreConcatenates(r, xs, [x]);
    assert [x][1..] == [];
    OthersRestoreNothing(r, ys);
    OthersRestoreNothing(ApplyAllRestore(r, xs + [x]), ys);
  }

  lemma {:induction false} OthersRestoreNothing(r: Restoring, ys: seq<Setting>)
    requires forall y | y in ys :: !y.RestoreNamed? && !y.RestoreSession?
    ensures ApplyAllRestore(r, ys) == r
    decreases |ys|
  {
    if ys != [] {
      assert ys[0] in ys && forall y | y in ys[1..] :: y in ys;
      OthersRestoreNothing(r, ys[1..]);
    }
  }

  /** One of the settings names or removes a certificate. */
  predicate SpeaksOfCa(xs: seq<Setting>) { exists x | x in xs :: CaDecision.ConcernsCa(x) }

  lemma SpeakTogether(xs: seq<Setting>, ys: seq<Setting>)
    ensures SpeaksOfCa(xs + ys) <==> SpeaksOfCa(xs) || SpeaksOfCa(ys)
  {
    forall x | x in xs || x in ys ensures x in xs + ys { }
  }

  lemma NothingIsApplied(voc: Vocabulary, args: seq<string>, ca: CaDecision.CaState, r: Restoring)
    ensures [] + Apply(voc, Drop(args, 0), false) == Apply(voc, args, false)
    ensures CaDecision.ApplyAllCa(ca, []) == ca && ApplyAllRestore(r, []) == r && !SpeaksOfCa([])
  {
    assert Drop(args, 0) == args;
  }

  lemma NothingIsLeft(voc: Vocabulary, args: seq<string>, i: nat, seen: bool)
    requires i >= |args|
    ensures Apply(voc, Drop(args, i), seen) == []
  {
  }

  /** The flags that the command line can change. `applied` records every setting
      made; the certificate and restore fields are kept as the program keeps them. */
  class GlobalFlags {
    var applied: seq<Setting>
    var caCert: Option<string>
    var clearCaCert: bool
    var cliCaCert: bool
    var restore: Option<string>
    var restoreUsesSession: bool
    var cliRestore: bool

    constructor (decision: CaDecision.CaState, restore: Option<string>)
      ensures applied == [] && Ca() == decision && !cliCaCert && !cliRestore
      ensures this.restore == restore && !restoreUsesSession
    {
      applied := [];
      caCert := decision.cert;
      clearCaCert := decision.clear;
      cliCaCert := false;
      this.restore := restore;
      restoreUsesSession := false;
      cliRestore := false;
    }

    ghost function Ca(): CaDecision.CaState
      reads this
    {
      CaDecision.CaState(caCert, clearCaCert)
    }

    ghost function RestoreState(): Restoring
      reads this
    {
      Restoring(restore, restoreUsesSession, cliRestore)
    }

    /** Record one setting and update the fields it concerns. */
    method Set(x: Setting)
      modifies this
      ensures applied == old(applied) + [x]
      ensures Ca() == CaDecision.ApplyCa(old(Ca()), x) == CaDecision.Decide(old(Ca()), CaDecision.OpinionOfSetting(x))
      ensures CaDecision.ConcernsCa(x) ==> !(caCert.Some? && clearCaCert)
      ensures !CaDecision.ConcernsCa(x) ==> Ca() == old(Ca()) && cliCaCert == old(cliCaCert)
      ensures cliCaCert == (old(cliCaCert) || CaDecision.ConcernsCa(x))
      ensures RestoreState() == ApplyRestore(old(RestoreState()), x)
    {
      applied := applied + [x];
      match x
      case Text(flag, operand) =>
        if flag == "--ca-cert" {
          caCert := Some(operand);
          clearCaCert := false;
          cliCaCert := true;
        }
      case Switch(flag, value) =>
        if flag == "--no-ca-cert" {
          clearCaCert := value;
          if value {
            caCert := None;
          }
          cliCaCert := true;
        }
      case RestoreNamed(name) =>
        cliRestore := true;
        restore := Some(name);
        restoreUsesSession := false;
      case RestoreSession =>
        cliRestore := true;
        restoreUsesSession := true;
      case Mark(_) =>
    }

    /** Apply the unit at `i`; `made` is the setting it makes, if any. */
    method ApplyUnit(voc: Vocabulary, args: seq<string>, i: nat, seenBefore: bool)
      returns (w: nat, seen: bool, ghost made: seq<Setting>)
      requires i < |args|
      modifies this
      ensures 1 <= w
      ensures Apply(voc, Drop(args, i), seenBefore) == made + Apply(voc, Drop(args, i + w), seen)
      ensures applied == old(applied) + made
      ensures Ca() == CaDecision.ApplyAllCa(old(Ca()), made)
      ensures RestoreState() == ApplyAllRestore(old(RestoreState()), made)
      ensures cliCaCert == (old(cliCaCert) || SpeaksOfCa(made))
    {
      seen := seenBefore;
      if IsCommand(voc, args[i]) {
        seen := true;
      }
      var setting: Option<Setting>;
      setting, w := ReadUnit(voc, args, i, seen);
      ApplyUnitAt(voc, args, i, seenBefore, seen, if setting.Some? then [setting.value] else [], w);
      made := [];
      if setting.Some? {
        made := [setting.value];
        Set(setting.value);
      }
    }

    /** Apply every global flag of the command line, in order. */
    method ApplyCliFlags(voc: Vocabulary, args: seq<string>)
      modifies this
      ensures applied == old(applied) + Apply(voc, args, false)
      ensures Ca() == CaDecision.ApplyAllCa(old(Ca()), Apply(voc, args, false))
      ensures RestoreState() == ApplyAllRestore(old(RestoreState()), Apply(voc, args, false))
      ensures cliCaCert == (old(cliCaCert) || SpeaksOfCa(Apply(voc, args, false)))
    {
      hide Apply, ApplyAllRestore, CaDecision.ApplyAllCa, Drop, SpeaksOfCa;
      var i := 0;
      var seenCommand := false;
      ghost var done: seq<Setting> := [];
      NothingIsApplied(voc, args, old(Ca()), old(RestoreState()));
      while i < |args|
        invariant 0 <= i && done + Apply(voc, Drop(args, i), seenCommand) == Apply(voc, args, false)
        invariant applied == old(applied) + done
        invariant Ca() == CaDecision.ApplyAllCa(old(Ca()), done)
        invariant RestoreState() == ApplyAllRestore(old(RestoreState()), done)
        invariant cliCaCert == (old(cliCaCert) || SpeaksOfCa(done))
      {
        ghost var before := done;
        var w, seen, made := ApplyUnit(voc, args, i, seenCommand);
        i, seenCommand := i + w, seen;
        done := done + made;
        CaDecision.ApplyAllConcatenates(old(Ca()), before, made);
        RestoreConcatenates(old(RestoreState()), before, made);
        SpeakTogether(before, made);
        ConcatIsAssociative(before, made, Apply(voc, Drop(args, i), seenCommand));
        ConcatIsAssociative(old(applied), before, made);
      }
      NothingIsLeft(voc, args, i, seenCommand);
      assert done + [] == done;
    }
  }
}
