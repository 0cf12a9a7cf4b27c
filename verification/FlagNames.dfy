/**
 The word lists of the three argument scanners, each as its own scanner has it,
 and the few facts about them on which the scanners' agreement rests.
 */
module FlagNames {
  import opened FlagScan

  /** The command words. */
  predicate IsTopLevelCommand(a: string) { IsPageCommand(a) || IsOtherCommand(a) }

  predicate IsPageCommand(a: string) {
    a in {
      "open", "goto", "navigate", "back", "forward", "reload", "read", "click", "dblclick", "fill", "type",
      "hover", "focus", "check", "uncheck", "select", "drag", "upload", "download", "press", "key",
      "keydown", "keyup", "keyboard", "scroll", "scrollintoview", "scrollinto", "wait", "screenshot", "pdf"
    }
  }

  predicate IsOtherCommand(a: string) {
    a in {
      "snapshot", "eval", "run-playwright", "daemon", "close", "quit", "exit", "inspect", "auth", "confirm",
      "deny", "connect", "stream", "get", "is", "find", "mouse", "set", "network", "storage", "cookies",
      "tab", "window", "frame", "dialog", "trace", "profiler", "record", "console", "errors", "highlight",
      "clipboard", "state", "tap", "swipe", "device", "diff", "batch", "react", "vitals", "web-vitals",
      "a11y", "pushstate", "removeinitscript", "session", "mcp", "doctor", "install", "upgrade", "profiles",
      "skills", "dashboard", "plugin", "plugins", "chat", "webmcp"
    }
  }

  /** Arms of the applying scanner that read an operand. */
  predicate ApplyTakesValue(a: string) {
    a in {
      "--session", "--restore-save", "--restore-check-url", "--restore-check-text", "--restore-check-fn",
      "--namespace", "--idle-timeout", "--headers", "--executable-path", "--extension", "--init-script",
      "--enable", "--cdp", "--profile", "--state", "--proxy", "--proxy-bypass", "--args", "--user-agent",
      "-p", "--provider", "--ca-cert", "--device", "--session-name", "--color-scheme", "--theme",
      "--download-path", "--max-output", "--allowed-domains", "--action-policy", "--confirm-actions",
      "--engine", "--screenshot-dir", "--screenshot-quality", "--screenshot-format", "--model"
    }
  }

  /** Arms of the applying scanner that read an optional true or false. */
  predicate ApplyTakesBool(a: string) {
    a in {
      "--json", "--headed", "--webgpu", "--no-webmcp", "--debug", "--ignore-https-errors", "--no-ca-cert",
      "--allow-file-access", "--hide-scrollbars", "--auto-connect", "--pin-tab", "--no-pin-tab",
      "--annotate", "--content-boundaries", "--confirm-interactive", "--require-sandbox", "--require-daemon",
      "--no-auto-dialog"
    }
  }

  /** Arms of the applying scanner that never read an operand. */
  predicate ApplyIsMarker(a: string) {
    a in {
      "-v", "--verbose", "-q", "--quiet"
    }
  }

  /** The cleaning scanner's flags with a value. */
  predicate CleanTakesValue(a: string) {
    a in {
      "--session", "--restore-save", "--restore-check-url", "--restore-check-text", "--restore-check-fn",
      "--namespace", "--headers", "--executable-path", "--cdp", "--extension", "--init-script", "--enable",
      "--profile", "--state", "--proxy", "--proxy-bypass", "--args", "--user-agent", "-p", "--provider",
      "--device", "--session-name", "--color-scheme", "--theme", "--download-path", "--max-output",
      "--allowed-domains", "--action-policy", "--confirm-actions", "--config", "--engine",
      "--screenshot-dir", "--screenshot-quality", "--screenshot-format", "--idle-timeout", "--ca-cert",
      "--model"
    }
  }

  /** The cleaning scanner's flags with an optional true or false. */
  predicate CleanTakesBool(a: string) {
    a in {
      "--json", "--headed", "--webgpu", "--no-webmcp", "--debug", "--ignore-https-errors",
      "--allow-file-access", "--hide-scrollbars", "--auto-connect", "--pin-tab", "--no-pin-tab",
      "--no-ca-cert", "--annotate", "--content-boundaries", "--confirm-interactive", "--no-auto-dialog",
      "--require-daemon", "--require-sandbox", "-v", "--verbose", "-q", "--quiet", "--offline", "--quick",
      "--fix"
    }
  }

  /** The flags whose operand the config extractor skips. */
  predicate ExtractTakesValue(a: string) {
    a in {
      "--session", "--restore-save", "--restore-check-url", "--restore-check-text", "--restore-check-fn",
      "--namespace", "--headers", "--executable-path", "--cdp", "--extension", "--init-script", "--enable",
      "--profile", "--state", "--proxy", "--proxy-bypass", "--args", "--user-agent", "-p", "--provider",
      "--device", "--session-name", "--color-scheme", "--theme", "--download-path", "--max-output",
      "--allowed-domains", "--action-policy", "--confirm-actions", "--engine", "--screenshot-dir",
      "--screenshot-quality", "--screenshot-format", "--idle-timeout", "--ca-cert", "--model"
    }
  }

  /** Flags the cleaning scanner drops for a command, and the applying scanner does not know. */
  predicate IsDoctorFlag(a: string) {
    a in {"--offline", "--quick", "--fix"}
  }

  lemma FlagsStartWithDash(a: string)
    ensures ApplyTakesValue(a) || CleanTakesValue(a) || CleanTakesBool(a) || ExtractTakesValue(a) ==> StartsWithDash(a)
  {
  }

  lemma PageCommandsDoNot(a: string)
    ensures IsPageCommand(a) ==> !StartsWithDash(a) && !IsBoolWord(a)
  {
  }

  lemma OtherCommandsDoNot(a: string)
    ensures IsOtherCommand(a) ==> !StartsWithDash(a) && !IsBoolWord(a)
  {
  }

  lemma CommandsDoNot(a: string)
    ensures IsTopLevelCommand(a) ==> !StartsWithDash(a) && !IsBoolWord(a)
  {
    hide IsPageCommand, IsOtherCommand;
    PageCommandsDoNot(a);
    OtherCommandsDoNot(a);
  }

  lemma ListsAgree(a: string)
    ensures CleanTakesValue(a) <==> ApplyTakesValue(a) || a == "--config"
    ensures CleanTakesBool(a) <==> ApplyTakesBool(a) || ApplyIsMarker(a) || IsDoctorFlag(a)
    ensures ExtractTakesValue(a) <==> ApplyTakesValue(a)
  {
  }

  lemma ListsAreDisjoint(a: string)
    ensures !(ApplyTakesValue(a) && a == "--config")
    ensures CleanTakesBool(a) ==> a != "--restore" && !CleanTakesValue(a)
    ensures CleanTakesValue(a) ==> a != "--restore"
    ensures IsDoctorFlag(a) ==> !ApplyTakesBool(a) && !ApplyIsMarker(a)
    ensures ApplyTakesBool(a) ==> !ApplyIsMarker(a)
  {
  }

  /** No listed flag begins with `--restore=`. */
  lemma RestorePrefixIsNoFlag(a: string)
    requires "--restore=" <= a
    ensures !CleanTakesValue(a) && !CleanTakesBool(a) && a != "--config" && a != "--restore"
  {
    assert a[9] == '=';
  }

  /** The vocabulary of the program. */
  const PROGRAM := Vocabulary(
    a => IsTopLevelCommand(a),
    a => ApplyTakesValue(a),
    a => ApplyTakesBool(a),
    a => ApplyIsMarker(a),
    a => CleanTakesValue(a),
    a => CleanTakesBool(a),
    a => ExtractTakesValue(a),
    a => IsDoctorFlag(a))

  /** The program's lists have what the agreement of the scanners needs. */
  lemma ProgramIsCoherent()
    ensures Coherent(PROGRAM)
  {
    hide IsTopLevelCommand, ApplyTakesValue, ApplyTakesBool, ApplyIsMarker, CleanTakesValue, CleanTakesBool,
         ExtractTakesValue, IsDoctorFlag;
    forall a: string ensures CoherentAt(PROGRAM, a) {
      ListsAgree(a);
      ListsAreDisjoint(a);
      FlagsStartWithDash(a);
      CommandsDoNot(a);
      if RESTORE_PREFIX <= a { RestorePrefixIsNoFlag(a); }
      if IsBoolWord(a) { assert !StartsWithDash(a); }
    }
  }

  /** For every command line of the program: one meaning for every argument, the
      right configuration path, and a cleaned command with nothing left to scan. */
  lemma ProgramScannersAgree(args: seq<string>)
    ensures Agree(PROGRAM, args, ApplyRoles(PROGRAM, args, false), CleanRoles(PROGRAM, args, false))
    ensures Extract(PROGRAM, args) == FirstConfig(args, ApplyRoles(PROGRAM, args, false))
    ensures var command := Clean(PROGRAM, args, false);
      && command == Kept(args, CleanRoles(PROGRAM, args, false))
      && Clean(PROGRAM, command, false) == command && Apply(PROGRAM, command, false) == []
  {
    ProgramIsCoherent();
    ScannersAgree(PROGRAM, args, false);
    ExtractorFindsAppliedConfig(PROGRAM, args, false);
    CleaningPartitions(PROGRAM, args, false);
    CleanedIsNormal(PROGRAM, args);
  }
}
