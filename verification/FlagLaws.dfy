/**
 What each form of global flag does to a command line, wherever a unit of it may
 stand: the settings it makes and the command it leaves, said by its own text.
 */
module FlagLaws {
  import opened CaDecision
  import opened FlagNames
  import opened FlagScan
  import opened Sequences
  import opened Wrappers

  /* ---------- At the head of what is left ---------- */

  predicate StartsWithBool(args: seq<string>) { args != [] && IsBoolWord(args[0]) }

  /** What the applying scanner makes of a line whose first `n` arguments are one
      unit: `made`, and then what it makes of the rest. */
  predicate Makes(voc: Vocabulary, unit: seq<string>, rest: seq<string>, seen: bool, made: seq<Setting>) {
    Apply(voc, unit + rest, seen) == made + Apply(voc, rest, seen)
  }

  lemma HeadOfLine(unit: seq<string>, rest: seq<string>)
    requires unit != []
    ensures (unit + rest)[0] == unit[0] && Drop(unit + rest, |unit|) == rest
    ensures |unit| > 1 ==> (unit + rest)[1] == unit[1]
    ensures |unit| == 1 && rest != [] ==> (unit + rest)[1] == rest[0]
  {
  }

  /** A boolean flag is on unless the literal false follows it. */
  lemma BoolFlag(voc: Vocabulary, f: string, rest: seq<string>, seen: bool)
    requires Coherent(voc) && voc.applyTakesBool(f)
    ensures !StartsWithBool(rest) ==> Makes(voc, [f], rest, seen, [Switch(f, true)])
    ensures Makes(voc, [f, "true"], rest, seen, [Switch(f, true)])
    ensures Makes(voc, [f, "false"], rest, seen, [Switch(f, false)])
  {
    KindOfFlag(voc, f);
    HeadOfLine([f], rest);
    ApplyUnfold(voc, [f] + rest, seen, if StartsWithBool(rest) then rest[1..] else rest);
    HeadOfLine([f, "true"], rest);
    ApplyUnfold(voc, [f, "true"] + rest, seen, rest);
    HeadOfLine([f, "false"], rest);
    ApplyUnfold(voc, [f, "false"] + rest, seen, rest);
  }

  lemma KindOfFlag(voc: Vocabulary, f: string)
    requires Coherent(voc)
    ensures voc.applyTakesBool(f) ==> ApplyKind(voc, f) == Bool && CleanKind(voc, f) == Bool && StartsWithDash(f)
    ensures voc.applyIsMarker(f) ==> ApplyKind(voc, f) == Marker && CleanKind(voc, f) == Bool && StartsWithDash(f)
    ensures voc.isDoctorFlag(f) ==> ApplyKind(voc, f) == Word && CleanKind(voc, f) == Bool && StartsWithDash(f)
    ensures voc.applyTakesValue(f) ==> ApplyKind(voc, f) == Value && CleanKind(voc, f) == Value && StartsWithDash(f)
    ensures !StartsWithDash(f) ==> ApplyKind(voc, f) == CleanKind(voc, f) == Word
  {
    KindsAgree(voc, f);
    assert CoherentAt(voc, f);
    if RESTORE_PREFIX <= f { assert f[0] == '-'; }
  }

  /** A marker is noted, and takes no operand. */
  lemma MarkerFlag(voc: Vocabulary, f: string, rest: seq<string>, seen: bool)
    requires Coherent(voc) && voc.applyIsMarker(f)
    ensures Makes(voc, [f], rest, seen, [Mark(f)])
  {
    KindOfFlag(voc, f);
    HeadOfLine([f], rest);
    ApplyUnfold(voc, [f] + rest, seen, rest);
  }

  /** A value flag takes what follows, whatever it looks like; at the end of the
      line it makes no setting. */
  lemma ValueFlag(voc: Vocabulary, f: string, v: string, rest: seq<string>, seen: bool)
    requires Coherent(voc) && voc.applyTakesValue(f)
    ensures Makes(voc, [f, v], rest, seen, [Text(f, v)])
    ensures Apply(voc, [f], seen) == []
  {
    KindOfFlag(voc, f);
    HeadOfLine([f, v], rest);
    ApplyUnfold(voc, [f, v] + rest, seen, rest);
    ApplyUnfold(voc, [f], seen, []);
  }

  /** The configuration path is no setting, but the extractor returns it. */
  lemma ConfigFlag(voc: Vocabulary, v: string, rest: seq<string>, seen: bool)
    requires Coherent(voc)
    ensures Makes(voc, ["--config", v], rest, seen, [])
    ensures Extract(voc, ["--config", v] + rest) == Some(Some(v)) && Extract(voc, ["--config"]) == Some(None)
  {
    assert CoherentAt(voc, "--config");
    HeadOfLine(["--config", v], rest);
    ApplyUnfold(voc, ["--config", v] + rest, seen, rest);
  }

  /** What follows is a name for `--restore`: before any command, and neither a flag nor a command. */
  predicate NamesSession(voc: Vocabulary, rest: seq<string>, seen: bool) {
    !seen && rest != [] && !StartsWithDash(rest[0]) && !voc.isTopLevelCommand(rest[0])
  }

  lemma RestoreFlag(voc: Vocabulary, rest: seq<string>, seen: bool)
    requires Coherent(voc)
    ensures NamesSession(voc, rest, seen) ==>
      Apply(voc, ["--restore"] + rest, seen) == [RestoreNamed(rest[0])] + Apply(voc, rest[1..], seen)
    ensures !NamesSession(voc, rest, seen) ==> Makes(voc, ["--restore"], rest, seen, [RestoreSession])
  {
    assert CoherentAt(voc, "--restore");
    var args := ["--restore"] + rest;
    HeadOfLine(["--restore"], rest);
    assert !IsCommand(voc, "--restore");
    assert NamesSession(voc, rest, seen) <==> NamesRestore(voc, seen, args);
    if NamesSession(voc, rest, seen) {
      assert Drop(args, 2) == rest[1..];
      ApplyUnfold(voc, args, seen, rest[1..]);
    } else {
      ApplyUnfold(voc, args, seen, rest);
    }
  }

  /** With an equals sign the name is what follows it, and an empty one means the session's own. */
  lemma RestoreWithFlag(voc: Vocabulary, name: string, rest: seq<string>, seen: bool)
    requires Coherent(voc) && !("--restore=" <= name)
    ensures Makes(voc, ["--restore=" + name], rest, seen, [if name == "" then RestoreSession else RestoreNamed(name)])
  {
    var f := "--restore=" + name;
    assert f[..|RESTORE_PREFIX|] == RESTORE_PREFIX && f[|RESTORE_PREFIX|..] == name && f[0] == '-';
    assert TrimPrefix(name, RESTORE_PREFIX) == name;
    assert TrimPrefix(f, RESTORE_PREFIX) == name;
    HeadOfLine([f], rest);
    ApplyUnfold(voc, [f] + rest, seen, rest);
  }

  /** A word makes no setting; a command among the words is noted for what follows. */
  lemma WordArgument(voc: Vocabulary, w: string, rest: seq<string>, seen: bool)
    requires Coherent(voc) && !StartsWithDash(w)
    ensures Apply(voc, [w] + rest, seen) == Apply(voc, rest, seen || voc.isTopLevelCommand(w))
    ensures Clean(voc, [w] + rest, seen) == [w] + Clean(voc, rest, seen || voc.isTopLevelCommand(w))
  {
    KindOfFlag(voc, w);
    HeadOfLine([w], rest);
    ApplyUnfold(voc, [w] + rest, seen, rest);
    CleanUnfold(voc, [w] + rest, seen, rest);
  }

  /* ---------- What is left of the line ---------- */

  /** The cleaning scanner drops the unit and goes on with the rest. */
  predicate Drops(voc: Vocabulary, unit: seq<string>, rest: seq<string>, seen: bool) {
    Clean(voc, unit + rest, seen) == Clean(voc, rest, seen)
  }

  /** Every boolean flag, marker and doctor flag goes, with a literal true or false behind it. */
  lemma BoolFlagIsDropped(voc: Vocabulary, f: string, rest: seq<string>, seen: bool)
    requires Coherent(voc) && (voc.applyTakesBool(f) || voc.applyIsMarker(f) || voc.isDoctorFlag(f))
    ensures !StartsWithBool(rest) ==> Drops(voc, [f], rest, seen)
    ensures Drops(voc, [f, "true"], rest, seen) && Drops(voc, [f, "false"], rest, seen)
  {
    KindOfFlag(voc, f);
    HeadOfLine([f], rest);
    CleanUnfold(voc, [f] + rest, seen, if StartsWithBool(rest) then rest[1..] else rest);
    HeadOfLine([f, "true"], rest);
    CleanUnfold(voc, [f, "true"] + rest, seen, rest);
    HeadOfLine([f, "false"], rest);
    CleanUnfold(voc, [f, "false"] + rest, seen, rest);
  }

  /** Every value flag goes with its value, and alone at the end of the line. */
  lemma ValueFlagIsDropped(voc: Vocabulary, f: string, v: string, rest: seq<string>, seen: bool)
    requires Coherent(voc) && (voc.applyTakesValue(f) || f == "--config")
    ensures Drops(voc, [f, v], rest, seen) && Clean(voc, [f], seen) == []
  {
    assert CoherentAt(voc, f);
    ValueFlagIsNoOperand(voc, f);
    HeadOfLine([f, v], rest);
    CleanUnfold(voc, [f, v] + rest, seen, rest);
    CleanUnfold(voc, [f], seen, []);
  }

  /** Every form of restore goes, with the name that follows it, if one does. */
  lemma RestoreIsDropped(voc: Vocabulary, name: string, rest: seq<string>, seen: bool)
    requires Coherent(voc)
    ensures Drops(voc, ["--restore=" + name], rest, seen)
    ensures Clean(voc, ["--restore"] + rest, seen) ==
            Clean(voc, if NamesSession(voc, rest, seen) then rest[1..] else rest, seen)
  {
    var f := "--restore=" + name;
    assert f[..|RESTORE_PREFIX|] == RESTORE_PREFIX && f[0] == '-';
    HeadOfLine([f], rest);
    CleanUnfold(voc, [f] + rest, seen, rest);
    assert CoherentAt(voc, "--restore");
    var args := ["--restore"] + rest;
    HeadOfLine(["--restore"], rest);
    if NamesSession(voc, rest, seen) {
      assert Drop(args, 2) == rest[1..];
      CleanUnfold(voc, args, seen, rest[1..]);
    } else {
      CleanUnfold(voc, args, seen, rest);
    }
  }

  /* ---------- Anywhere on the line ---------- */

  lemma UnitAnywhere(voc: Vocabulary, pre: seq<string>, unit: seq<string>, rest: seq<string>, seen: bool,
                     made: seq<Setting>)
    requires ApplyBoundary(voc, pre, unit + rest, seen)
    requires Makes(voc, unit, rest, ApplySeen(voc, pre, seen), made)
    ensures Apply(voc, pre + (unit + rest), seen) ==
            Apply(voc, pre, seen) + made + Apply(voc, rest, ApplySeen(voc, pre, seen))
  {
    hide Apply, ApplySeen, ApplyBoundary;
    SettingsConcatenate(voc, pre, unit + rest, seen);
    ConcatIsAssociative(Apply(voc, pre, seen), made, Apply(voc, rest, ApplySeen(voc, pre, seen)));
  }

  /** Wherever a unit may begin, a boolean flag adds one switch at its place: on,
      unless the literal false follows. */
  lemma SwitchAnywhere(voc: Vocabulary, pre: seq<string>, f: string, rest: seq<string>, seen: bool)
    requires Coherent(voc) && voc.applyTakesBool(f)
    ensures ApplyBoundary(voc, pre, [f] + rest, seen) && !StartsWithBool(rest) ==>
      Apply(voc, pre + ([f] + rest), seen) ==
      Apply(voc, pre, seen) + [Switch(f, true)] + Apply(voc, rest, ApplySeen(voc, pre, seen))
    ensures ApplyBoundary(voc, pre, [f, "true"] + rest, seen) ==>
      Apply(voc, pre + ([f, "true"] + rest), seen) ==
      Apply(voc, pre, seen) + [Switch(f, true)] + Apply(voc, rest, ApplySeen(voc, pre, seen))
    ensures ApplyBoundary(voc, pre, [f, "false"] + rest, seen) ==>
      Apply(voc, pre + ([f, "false"] + rest), seen) ==
      Apply(voc, pre, seen) + [Switch(f, false)] + Apply(voc, rest, ApplySeen(voc, pre, seen))
  {
    hide Apply, ApplySeen, ApplyBoundary, Makes;
    BoolFlag(voc, f, rest, ApplySeen(voc, pre, seen));
    if ApplyBoundary(voc, pre, [f] + rest, seen) && !StartsWithBool(rest) {
      UnitAnywhere(voc, pre, [f], rest, seen, [Switch(f, true)]);
    }
    if ApplyBoundary(voc, pre, [f, "true"] + rest, seen) {
      UnitAnywhere(voc, pre, [f, "true"], rest, seen, [Switch(f, true)]);
    }
    if ApplyBoundary(voc, pre, [f, "false"] + rest, seen) {
      UnitAnywhere(voc, pre, [f, "false"], rest, seen, [Switch(f, false)]);
    }
  }

  /** Wherever a unit may begin, `--restore` restores the session named behind it,
      if there is a name and no command came before, and else the session's own. */
  lemma RestoreAnywhere(voc: Vocabulary, pre: seq<string>, rest: seq<string>, seen: bool)
    requires Coherent(voc) && ApplyBoundary(voc, pre, ["--restore"] + rest, seen)
    ensures var later := ApplySeen(voc, pre, seen);
            Apply(voc, pre + (["--restore"] + rest), seen) ==
            if NamesSession(voc, rest, later)
            then Apply(voc, pre, seen) + [RestoreNamed(rest[0])] + Apply(voc, rest[1..], later)
            else Apply(voc, pre, seen) + [RestoreSession] + Apply(voc, rest, later)
  {
    hide Apply, ApplySeen, ApplyBoundary;
    var later := ApplySeen(voc, pre, seen);
    SettingsConcatenate(voc, pre, ["--restore"] + rest, seen);
    RestoreFlag(voc, rest, later);
    if NamesSession(voc, rest, later) {
      ConcatIsAssociative(Apply(voc, pre, seen), [RestoreNamed(rest[0])], Apply(voc, rest[1..], later));
    } else {
      ConcatIsAssociative(Apply(voc, pre, seen), [RestoreSession], Apply(voc, rest, later));
    }
  }

  /** A command has been seen exactly if it was before, or one of the words is one. */
  lemma {:induction false} WordsSetTheMode(voc: Vocabulary, words: seq<string>, seen: bool)
    requires Coherent(voc) && forall w | w in words :: !StartsWithDash(w)
    ensures ApplySeen(voc, words, seen) <==> seen || exists w | w in words :: voc.isTopLevelCommand(w)
    ensures Apply(voc, words, seen) == [] && Clean(voc, words, seen) == words
    decreases |words|
  {
    if words != [] {
      var w, rest := words[0], words[1..];
      assert w in words && words == [w] + rest && forall v | v in rest :: v in words;
      WordArgument(voc, w, rest, seen);
      WordsSetTheMode(voc, rest, seen || voc.isTopLevelCommand(w));
      KindOfFlag(voc, w);
      ApplySeenUnfold(voc, words, seen, rest);
    }
  }

  /** Before a command of the program `--restore` stands alone, and the command is kept. */
  lemma RestoreBeforeCommand(command: string, rest: seq<string>)
    requires IsPageCommand(command) || IsOtherCommand(command)
    ensures Apply(PROGRAM, ["--restore"] + ([command] + rest), false) == [RestoreSession] + Apply(PROGRAM, rest, true)
    ensures Clean(PROGRAM, ["--restore"] + ([command] + rest), false) == [command] + Clean(PROGRAM, rest, true)
  {
    ProgramIsCoherent();
    assert CoherentAt(PROGRAM, command);
    assert PROGRAM.isTopLevelCommand(command);
    var line := [command] + rest;
    assert line[0] == command;
    hide IsPageCommand, IsOtherCommand, Apply, Clean;
    RestoreFlag(PROGRAM, line, false);
    RestoreIsDropped(PROGRAM, "", line, false);
    WordArgument(PROGRAM, command, rest, false);
  }

  /** Behind words only, and behind each further unit, the next one may begin. */
  lemma {:induction false} BoundariesBehindWords(voc: Vocabulary, words: seq<string>, post: seq<string>, seen: bool)
    requires Coherent(voc) && forall w | w in words :: !StartsWithDash(w)
    ensures ApplyBoundary(voc, words, post, seen)
    decreases |words|
  {
    if words != [] {
      var w, rest := words[0], words[1..];
      assert w in words && forall v | v in rest :: v in words;
      KindOfFlag(voc, w);
      assert (words + post)[0] == w;
      BoundariesBehindWords(voc, rest, post, seen || IsCommand(voc, w));
    }
  }

  lemma {:induction false} BoundariesAdvance(voc: Vocabulary, pre: seq<string>, post: seq<string>, seen: bool, w: nat)
    requires ApplyBoundary(voc, pre, post, seen) && post != []
    requires w == ApplyWidth(voc, post, ApplySeen(voc, pre, seen) || IsCommand(voc, post[0])) <= |post|
    ensures ApplyBoundary(voc, pre + post[..w], post[w..], seen)
    decreases |pre|
  {
    hide ApplyWidth, Apply, ApplyUnit;
    var longer := pre + post[..w];
    assert longer + post[w..] == pre + post;
    if pre == [] {
      assert longer == post[..w] && longer[w..] == [] && pre + post == post;
    } else {
      var seen' := seen || IsCommand(voc, pre[0]);
      var v := ApplyWidth(voc, pre + post, seen');
      FirstUnitOfJoined(voc, pre, post, seen, v);
      BoundariesAdvance(voc, pre[v..], post, seen', w);
      DropJoined(pre, post[..w], v);
    }
  }

  /* ---------- The certificate, from the arguments ---------- */

  /** Nothing in what follows concerns the certificate. */
  predicate SilentOnCa(xs: seq<Setting>) { forall x | x in xs :: !ConcernsCa(x) }

  lemma {:induction false} SilenceChangesNothing(s: CaState, xs: seq<Setting>)
    requires SilentOnCa(xs)
    ensures ApplyAllCa(s, xs) == s
    decreases |xs|
  {
    if xs != [] {
      assert xs[0] in xs;
      SilenceChangesNothing(s, xs[1..]);
    }
  }

  /** The flags in the end, from all sources and the command line. */
  function FinalCa(layers: seq<Layer>, env: Layer, args: seq<string>): CaState {
    ApplyAllCa(ResolveCaCert(MergeAll(layers), env), Apply(PROGRAM, args, false))
  }

  lemma LastSettingDecides(layers: seq<Layer>, env: Layer, pre: seq<string>, unit: seq<string>, rest: seq<string>,
                           x: Setting)
    requires ApplyBoundary(PROGRAM, pre, unit + rest, false)
    requires Makes(PROGRAM, unit, rest, ApplySeen(PROGRAM, pre, false), [x])
    requires SilentOnCa(Apply(PROGRAM, rest, ApplySeen(PROGRAM, pre, false)))
    ensures FinalCa(layers, env, pre + (unit + rest)) == ApplyCa(FinalCa(layers, env, pre), x)
  {
    hide Apply, ApplySeen, ApplyBoundary, Makes, ApplyCa, SilentOnCa;
    var start, later := ResolveCaCert(MergeAll(layers), env), ApplySeen(PROGRAM, pre, false);
    var before, after := Apply(PROGRAM, pre, false), Apply(PROGRAM, rest, later);
    UnitAnywhere(PROGRAM, pre, unit, rest, false, [x]);
    ApplyAllConcatenates(start, before + [x], after);
    ApplyAllConcatenates(start, before, [x]);
    SilenceChangesNothing(ApplyAllCa(start, before + [x]), after);
    assert [x][1..] == [];
  }

  /** Whatever the configuration files and the environment say and whatever comes
      before it: the last certificate flag on the line decides. A bare
      `--no-ca-cert` removes the certificate and sets the mark, `--ca-cert` with a
      path uses that path, and `--no-ca-cert false` takes the mark back only. */
  lemma LastCertificateFlagDecides(layers: seq<Layer>, env: Layer, pre: seq<string>, path: string, rest: seq<string>)
    requires SilentOnCa(Apply(PROGRAM, rest, ApplySeen(PROGRAM, pre, false)))
    ensures ApplyBoundary(PROGRAM, pre, ["--no-ca-cert"] + rest, false) && !StartsWithBool(rest) ==>
      FinalCa(layers, env, pre + (["--no-ca-cert"] + rest)) == CaState(None, true)
    ensures ApplyBoundary(PROGRAM, pre, ["--no-ca-cert", "true"] + rest, false) ==>
      FinalCa(layers, env, pre + (["--no-ca-cert", "true"] + rest)) == CaState(None, true)
    ensures ApplyBoundary(PROGRAM, pre, ["--ca-cert", path] + rest, false) ==>
      FinalCa(layers, env, pre + (["--ca-cert", path] + rest)) == CaState(Some(path), false)
    ensures ApplyBoundary(PROGRAM, pre, ["--no-ca-cert", "false"] + rest, false) ==>
      FinalCa(layers, env, pre + (["--no-ca-cert", "false"] + rest)) == FinalCa(layers, env, pre).(clear := false)
  {
    hide Apply, ApplySeen, ApplyBoundary, Makes, SilentOnCa, FinalCa;
    var later := ApplySeen(PROGRAM, pre, false);
    ProgramIsCoherent();
    CertificateFlags();
    BoolFlag(PROGRAM, "--no-ca-cert", rest, later);
    ValueFlag(PROGRAM, "--ca-cert", path, rest, later);
    if ApplyBoundary(PROGRAM, pre, ["--no-ca-cert"] + rest, false) && !StartsWithBool(rest) {
      LastSettingDecides(layers, env, pre, ["--no-ca-cert"], rest, Switch("--no-ca-cert", true));
    }
    if ApplyBoundary(PROGRAM, pre, ["--no-ca-cert", "true"] + rest, false) {
      LastSettingDecides(layers, env, pre, ["--no-ca-cert", "true"], rest, Switch("--no-ca-cert", true));
    }
    if ApplyBoundary(PROGRAM, pre, ["--ca-cert", path] + rest, false) {
      LastSettingDecides(layers, env, pre, ["--ca-cert", path], rest, Text("--ca-cert", path));
    }
    if ApplyBoundary(PROGRAM, pre, ["--no-ca-cert", "false"] + rest, false) {
      LastSettingDecides(layers, env, pre, ["--no-ca-cert", "false"], rest, Switch("--no-ca-cert", false));
    }
  }

  lemma CertificateFlags()
    ensures PROGRAM.applyTakesBool("--no-ca-cert") && PROGRAM.applyTakesValue("--ca-cert")
  {
  }

  /** With a command line that does not speak of it, the environment decides: a
      certificate, a removal, or only the taking back of a removal; and when it is
      silent too, what the configuration layers amount to stands. */
  lemma EnvironmentDecidesNext(layers: seq<Layer>, env: Layer, args: seq<string>)
    requires SilentOnCa(Apply(PROGRAM, args, false))
    ensures FinalCa(layers, env, args) ==
            match env
            case Layer(Some(cert), _) => CaState(Some(cert), false)
            case Layer(None, Some(true)) => CaState(None, true)
            case Layer(None, Some(false)) => StateOf(MergeAll(layers)).(clear := false)
            case Layer(None, None) => StateOf(MergeAll(layers))
  {
    SilenceChangesNothing(ResolveCaCert(MergeAll(layers), env), Apply(PROGRAM, args, false));
    EnvironmentDecides(MergeAll(layers), env);
  }

  /** And so does each configuration layer over the layers below it. */
  lemma HigherLayerDecides(below: seq<Layer>, top: Layer)
    ensures StateOf(MergeAll(below + [top])) ==
            match top
            case Layer(Some(cert), _) => CaState(Some(cert), false)
            case Layer(None, Some(true)) => CaState(None, true)
            case Layer(None, Some(false)) => StateOf(MergeAll(below)).(clear := false)
            case Layer(None, None) => StateOf(MergeAll(below))
  {
    assert (below + [top])[..|below|] == below;
    if below != [] { MergeDecides(MergeAll(below), top); }
  }
}
