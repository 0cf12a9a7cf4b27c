/**
 The three scanners that walk the command line on their own: one applies the
 global flags, one removes them to leave the command, one looks for the path of
 the configuration file. They must agree on what every argument means.
 */
module FlagScan {
  import opened Sequences
  import opened Wrappers

  /** The word lists the scanners consult, each scanner its own. */
  datatype Vocabulary = Vocabulary(
    isTopLevelCommand: string -> bool,
    applyTakesValue: string -> bool,
    applyTakesBool: string -> bool,
    applyIsMarker: string -> bool,
    cleanTakesValue: string -> bool,
    cleanTakesBool: string -> bool,
    extractTakesValue: string -> bool,
    isDoctorFlag: string -> bool)

  predicate StartsWithDash(a: string) {
    a != "" && a[0] == '-'
  }

  predicate IsBoolWord(a: string) {
    a == "true" || a == "false"
  }

  /** What the agreement of the scanners needs of their lists. */
  predicate CoherentAt(voc: Vocabulary, a: string) {
    && (voc.cleanTakesValue(a) <==> voc.applyTakesValue(a) || a == "--config")
    && (voc.cleanTakesBool(a) <==> voc.applyTakesBool(a) || voc.applyIsMarker(a) || voc.isDoctorFlag(a))
    && (voc.extractTakesValue(a) <==> voc.applyTakesValue(a))
    && (voc.applyTakesValue(a) ==> a != "--config")
    && (voc.cleanTakesValue(a) ==> a != "--restore" && !voc.cleanTakesBool(a))
    && (voc.cleanTakesBool(a) ==> a != "--restore")
    && (voc.isDoctorFlag(a) ==> !voc.applyTakesBool(a) && !voc.applyIsMarker(a))
    && (voc.applyTakesBool(a) ==> !voc.applyIsMarker(a))
    && (voc.cleanTakesValue(a) || voc.cleanTakesBool(a) ==> StartsWithDash(a) && !IsBoolWord(a))
    && (voc.isTopLevelCommand(a) ==> !StartsWithDash(a) && !IsBoolWord(a))
    && (RESTORE_PREFIX <= a ==> !voc.cleanTakesValue(a) && !voc.cleanTakesBool(a))
  }

  ghost predicate Coherent(voc: Vocabulary) {
    forall a {:trigger CoherentAt(voc, a)} :: CoherentAt(voc, a)
  }

  /** What a scanner takes an argument for when it meets it as a unit of its own. */
  datatype Kind = RestoreWith | Value | Config | Restore | Bool | Marker | Word

  function ApplyKind(voc: Vocabulary, a: string): Kind {
    if RESTORE_PREFIX <= a then RestoreWith
    else if voc.applyTakesValue(a) then Value
    else if a == "--config" then Config
    else if a == "--restore" then Restore
    else if voc.applyTakesBool(a) then Bool
    else if voc.applyIsMarker(a) then Marker
    else Word
  }

  function CleanKind(voc: Vocabulary, a: string): Kind {
    if RESTORE_PREFIX <= a then RestoreWith
    else if voc.cleanTakesValue(a) then Value
    else if a == "--restore" then Restore
    else if voc.cleanTakesBool(a) then Bool
    else Word
  }

  const RESTORE_PREFIX := "--restore="

  predicate IsCommand(voc: Vocabulary, a: string) {
    !StartsWithDash(a) && voc.isTopLevelCommand(a)
  }

  /** The argument after `--restore` is its operand. */
  predicate NamesRestore(voc: Vocabulary, seen: bool, args: seq<string>) {
    !seen && |args| > 1 && !StartsWithDash(args[1]) && !voc.isTopLevelCommand(args[1])
  }

  predicate HasBoolOperand(args: seq<string>) {
    |args| > 1 && IsBoolWord(args[1])
  }

  /** All but the first `n` arguments, however few there are. */
  function Drop(args: seq<string>, n: nat): (r: seq<string>) {
    if n <= |args| then args[n..] else []
  }

  /* ---------- The applying scanner ---------- */

  datatype Setting =
    | Text(flag: string, operand: string)
    | Switch(flag: string, value: bool)
    | Mark(flag: string)
    | RestoreNamed(name: string)
    | RestoreSession

  /** How many arguments the unit at the head takes; a value flag claims its
      operand even when the line ends before it. */
  function ApplyWidth(voc: Vocabulary, args: seq<string>, seen: bool): (w: nat)
    requires args != []
    ensures 1 <= w <= 2
  {
    match ApplyKind(voc, args[0])
    case Value => 2
    case Config => 2
    case Restore => if NamesRestore(voc, seen, args) then 2 else 1
    case Bool => if HasBoolOperand(args) then 2 else 1
    case _ => 1
  }

  function TrimPrefix(s: string, prefix: string): string
    requires prefix != ""
  {
    if prefix <= s then TrimPrefix(s[|prefix|..], prefix) else s
  }

  /** The settings the unit at the head makes. */
  function ApplyUnit(voc: Vocabulary, args: seq<string>, seen: bool): seq<Setting>
    requires args != []
  {
    var a := args[0];
    match ApplyKind(voc, a)
    case RestoreWith =>
      var name := TrimPrefix(a, RESTORE_PREFIX);
      [if name == "" then RestoreSession else RestoreNamed(name)]
    case Value => if |args| > 1 then [Text(a, args[1])] else []
    case Config => []
    case Restore => [if NamesRestore(voc, seen, args) then RestoreNamed(args[1]) else RestoreSession]
    case Bool => [Switch(a, !(HasBoolOperand(args) && args[1] == "false"))]
    case Marker => [Mark(a)]
    case Word => []
  }

  function Apply(voc: Vocabulary, args: seq<string>, seen: bool): seq<Setting>
    decreases |args|
  {
    if args == [] then [] else
    var seen' := seen || IsCommand(voc, args[0]);
    ApplyUnit(voc, args, seen') + Apply(voc, Drop(args, ApplyWidth(voc, args, seen')), seen')
  }

  /** What a scanner makes of one position of the line. */
  datatype Role = Flag | Operand | Plain

  function ApplyRoles(voc: Vocabulary, args: seq<string>, seen: bool): (roles: seq<Role>)
    ensures |roles| == |args|
    decreases |args|
  {
    if args == [] then [] else
    var seen' := seen || IsCommand(voc, args[0]);
    var w := ApplyWidth(voc, args, seen');
    [if ApplyKind(voc, args[0]) == Word then Plain else Flag]
      + (if w == 2 && |args| > 1 then [Operand] else [])
      + ApplyRoles(voc, Drop(args, w), seen')
  }

  function ApplySeen(voc: Vocabulary, args: seq<string>, seen: bool): bool
    decreases |args|
  {
    if args == [] then seen else
    var seen' := seen || IsCommand(voc, args[0]);
    ApplySeen(voc, Drop(args, ApplyWidth(voc, args, seen')), seen')
  }

  /* ---------- The cleaning scanner ---------- */

  function CleanWidth(voc: Vocabulary, args: seq<string>, seen: bool): (w: nat)
    requires args != []
    ensures 1 <= w <= 2
  {
    match CleanKind(voc, args[0])
    case Value => 2
    case Restore => if NamesRestore(voc, seen, args) then 2 else 1
    case Bool => if HasBoolOperand(args) then 2 else 1
    case _ => 1
  }

  /** The cleaning scanner notes a command only among the words it keeps. */
  function CleanNotes(voc: Vocabulary, a: string, seen: bool): bool {
    seen || (CleanKind(voc, a) == Word && IsCommand(voc, a))
  }

  function Clean(voc: Vocabulary, args: seq<string>, seen: bool): seq<string>
    decreases |args|
  {
    if args == [] then [] else
    (if CleanKind(voc, args[0]) == Word then [args[0]] else [])
      + Clean(voc, Drop(args, CleanWidth(voc, args, seen)), CleanNotes(voc, args[0], seen))
  }

  function CleanRoles(voc: Vocabulary, args: seq<string>, seen: bool): (roles: seq<Role>)
    ensures |roles| == |args|
    decreases |args|
  {
    if args == [] then [] else
    var w := CleanWidth(voc, args, seen);
    [if CleanKind(voc, args[0]) == Word then Plain else Flag]
      + (if w == 2 && |args| > 1 then [Operand] else [])
      + CleanRoles(voc, Drop(args, w), CleanNotes(voc, args[0], seen))
  }

  function CleanSeen(voc: Vocabulary, args: seq<string>, seen: bool): bool
    decreases |args|
  {
    if args == [] then seen
    else CleanSeen(voc, Drop(args, CleanWidth(voc, args, seen)), CleanNotes(voc, args[0], seen))
  }

  /* ---------- The config extractor ---------- */

  function Extract(voc: Vocabulary, args: seq<string>): Option<Option<string>>
    decreases |args|
  {
    if args == [] then None
    else if args[0] == "--config" then Some(if |args| > 1 then Some(args[1]) else None)
    else if voc.extractTakesValue(args[0]) then Extract(voc, Drop(args, 2))
    else Extract(voc, args[1..])
  }

  /** The operand of the first `--config` that `roles` marks as a flag. */
  function FirstConfig(args: seq<string>, roles: seq<Role>): Option<Option<string>>
    requires |args| == |roles|
    decreases |args|
  {
    if args == [] then None
    else if roles[0] == Flag && args[0] == "--config" then Some(if |args| > 1 then Some(args[1]) else None)
    else FirstConfig(args[1..], roles[1..])
  }

  /* ---------- Agreement ---------- */

  lemma KindsAgree(voc: Vocabulary, a: string)
    requires Coherent(voc)
    ensures var k := ApplyKind(voc, a); var c := CleanKind(voc, a);
      && (c == Value <==> k == Value || k == Config)
      && (c == RestoreWith <==> k == RestoreWith)
      && (c == Restore <==> k == Restore)
      && (c == Bool <==> k == Bool || k == Marker || (k == Word && voc.isDoctorFlag(a)))
      && (c == Word <==> k == Word && !voc.isDoctorFlag(a))
      && (k != Word || c != Word ==> StartsWithDash(a))
  {
    assert CoherentAt(voc, a);
    if RESTORE_PREFIX <= a { assert a[0] == '-'; }
  }

  /** The flags to which only the cleaning scanner gives a true or false operand. */
  predicate OnlyCleanReadsBool(voc: Vocabulary, a: string) {
    voc.applyIsMarker(a) || voc.isDoctorFlag(a)
  }

  /** What the cleaning scanner must make of position `p`, given the roles the
      applying scanner sees there and the one it has itself given before it. */
  function Expected(voc: Vocabulary, args: seq<string>, applied: seq<Role>, cleaned: seq<Role>, p: nat): Role
    requires p < |args| == |applied| == |cleaned|
  {
    match applied[p]
    case Flag => Flag
    case Operand => Operand
    case Plain =>
      if voc.isDoctorFlag(args[p]) then Flag
      else if p > 0 && cleaned[p - 1] == Flag && OnlyCleanReadsBool(voc, args[p - 1]) && IsBoolWord(args[p])
      then Operand
      else Plain
  }

  lemma BoolWordIsPlain(voc: Vocabulary, a: string)
    requires Coherent(voc)
    requires IsBoolWord(a)
    ensures ApplyKind(voc, a) == Word && CleanKind(voc, a) == Word && !IsCommand(voc, a) && !voc.isDoctorFlag(a)
  {
    KindsAgree(voc, a);
    assert CoherentAt(voc, a);
    assert !StartsWithDash(a);
  }

  lemma HeadsAgree(voc: Vocabulary, args: seq<string>, seen: bool)
    requires Coherent(voc)
    requires args != []
    ensures CleanNotes(voc, args[0], seen) == (seen || IsCommand(voc, args[0]))
    ensures var wa := ApplyWidth(voc, args, seen || IsCommand(voc, args[0])); var wc := CleanWidth(voc, args, seen);
      || wa == wc
      || (wa == 1 && wc == 2 && OnlyCleanReadsBool(voc, args[0]) && HasBoolOperand(args)
          && CleanKind(voc, args[0]) == Bool)
    ensures CleanKind(voc, args[0]) == Bool && CleanWidth(voc, args, seen) == 1 ==> !HasBoolOperand(args)
    ensures OnlyCleanReadsBool(voc, args[0]) ==>
      CleanKind(voc, args[0]) == Bool || CleanKind(voc, args[0]) == RestoreWith
  {
    KindsAgree(voc, args[0]);
    assert CoherentAt(voc, args[0]);
  }

  predicate Agree(voc: Vocabulary, args: seq<string>, applied: seq<Role>, cleaned: seq<Role>)
    requires |args| == |applied| == |cleaned|
  {
    forall p | 0 <= p < |args| :: cleaned[p] == Expected(voc, args, applied, cleaned, p)
  }

  /** Agreement on the rest of the line extends over the unit in front of it. */
  lemma AgreementExtends(voc: Vocabulary, args: seq<string>, applied: seq<Role>, cleaned: seq<Role>, w: nat)
    requires |args| == |applied| == |cleaned| && 1 <= w <= |args|
    requires Agree(voc, args[w..], applied[w..], cleaned[w..])
    requires forall p | 0 <= p < w :: cleaned[p] == Expected(voc, args, applied, cleaned, p)
    requires w < |args| && cleaned[w - 1] == Flag && OnlyCleanReadsBool(voc, args[w - 1]) ==> !IsBoolWord(args[w])
    ensures Agree(voc, args, applied, cleaned)
  {
    forall p | 0 <= p < |args| ensures cleaned[p] == Expected(voc, args, applied, cleaned, p) {
      if p >= w {
        assert cleaned[w..][p - w] == Expected(voc, args[w..], applied[w..], cleaned[w..], p - w);
        assert p > w ==> args[w..][p - w - 1] == args[p - 1] && cleaned[w..][p - w - 1] == cleaned[p - 1];
      }
    }
  }

  /** One unit of the applying scanner, written out. */
  lemma ApplyRolesUnfold(voc: Vocabulary, args: seq<string>, seen: bool)
    requires args != []
    ensures var seen' := seen || IsCommand(voc, args[0]); var w := ApplyWidth(voc, args, seen');
      var A := ApplyRoles(voc, args, seen); var n := if w <= |args| then w else |args|;
      && A[0] == (if ApplyKind(voc, args[0]) == Word then Plain else Flag)
      && (n == 2 ==> A[1] == Operand)
      && A[n..] == ApplyRoles(voc, Drop(args, w), seen')
      && ApplySeen(voc, args, seen) == ApplySeen(voc, Drop(args, w), seen')
  {
  }

  lemma CleanRolesUnfold(voc: Vocabulary, args: seq<string>, seen: bool)
    requires args != []
    ensures var w := CleanWidth(voc, args, seen);
      var C := CleanRoles(voc, args, seen); var n := if w <= |args| then w else |args|;
      && C[0] == (if CleanKind(voc, args[0]) == Word then Plain else Flag)
      && (n == 2 ==> C[1] == Operand)
      && C[n..] == CleanRoles(voc, Drop(args, w), CleanNotes(voc, args[0], seen))
      && CleanSeen(voc, args, seen) == CleanSeen(voc, Drop(args, w), CleanNotes(voc, args[0], seen))
  {
  }

  /** The applying scanner passes over a true or false it does not read. */
  lemma BoolOperandIsSkipped(voc: Vocabulary, args: seq<string>, seen: bool)
    requires Coherent(voc)
    requires HasBoolOperand(args)
    ensures var A := ApplyRoles(voc, Drop(args, 1), seen);
      A[0] == Plain && A[1..] == ApplyRoles(voc, Drop(args, 2), seen)
    ensures ApplySeen(voc, Drop(args, 1), seen) == ApplySeen(voc, Drop(args, 2), seen)
  {
    BoolWordIsPlain(voc, args[1]);
    assert Drop(args, 1)[0] == args[1];
    assert Drop(Drop(args, 1), 1) == Drop(args, 2);
    ApplyRolesUnfold(voc, Drop(args, 1), seen);
  }

  function UnitLength(voc: Vocabulary, args: seq<string>, seen: bool): (n: nat)
    requires args != []
    ensures 1 <= n <= 2 && n <= |args|
  {
    if CleanWidth(voc, args, seen) <= |args| then CleanWidth(voc, args, seen) else |args|
  }

  /** After the cleaning scanner's unit both scanners go on at the same place. */
  lemma TailsAlign(voc: Vocabulary, args: seq<string>, seen: bool)
    requires Coherent(voc)
    requires args != []
    ensures var n := UnitLength(voc, args, seen); var seen' := seen || IsCommand(voc, args[0]);
      && ApplyRoles(voc, args, seen)[n..] == ApplyRoles(voc, args[n..], seen')
      && CleanRoles(voc, args, seen)[n..] == CleanRoles(voc, args[n..], seen')
      && ApplySeen(voc, args, seen) == ApplySeen(voc, args[n..], seen')
      && CleanSeen(voc, args, seen) == CleanSeen(voc, args[n..], seen')
  {
    var w := CleanWidth(voc, args, seen);
    var n := UnitLength(voc, args, seen);
    var seen' := seen || IsCommand(voc, args[0]);
    HeadsAgree(voc, args, seen);
    ApplyRolesUnfold(voc, args, seen);
    CleanRolesUnfold(voc, args, seen);
    assert args[n..] == Drop(args, w);
    if ApplyWidth(voc, args, seen') != w {
      BoolOperandIsSkipped(voc, args, seen');
      assert ApplyRoles(voc, args, seen)[1..][1..] == ApplyRoles(voc, args, seen)[2..];
    }
  }

  /** The unit's own positions agree. */
  lemma UnitRolesAgree(voc: Vocabulary, args: seq<string>, seen: bool)
    requires Coherent(voc)
    requires args != []
    ensures var n := UnitLength(voc, args, seen);
      var A := ApplyRoles(voc, args, seen); var C := CleanRoles(voc, args, seen);
      && C[0] == Expected(voc, args, A, C, 0)
      && (n == 2 ==> C[1] == Expected(voc, args, A, C, 1) == Operand)
      && (n == 1 && |args| > 1 && C[0] == Flag && OnlyCleanReadsBool(voc, args[0]) ==> !IsBoolWord(args[1]))
  {
    var seen' := seen || IsCommand(voc, args[0]);
    HeadsAgree(voc, args, seen);
    KindsAgree(voc, args[0]);
    assert CoherentAt(voc, args[0]);
    ApplyRolesUnfold(voc, args, seen);
    CleanRolesUnfold(voc, args, seen);
    if ApplyWidth(voc, args, seen') != CleanWidth(voc, args, seen) {
      BoolOperandIsSkipped(voc, args, seen');
      BoolWordIsPlain(voc, args[1]);
      assert ApplyRoles(voc, args, seen)[1] == ApplyRoles(voc, args, seen)[1..][0] == Plain;
    }
  }

  /** The applying and the cleaning scanner give every argument of every line
      the same meaning, but for the doctor flags, which only the latter drops,
      and the true or false that only the latter reads after some flags; and
      they agree on whether a command has been seen. */
  lemma {:induction false} ScannersAgree(voc: Vocabulary, args: seq<string>, seen: bool)
    requires Coherent(voc)
    ensures Agree(voc, args, ApplyRoles(voc, args, seen), CleanRoles(voc, args, seen))
    ensures ApplySeen(voc, args, seen) == CleanSeen(voc, args, seen)
    decreases |args|
  {
    if args != [] {
      var n := UnitLength(voc, args, seen);
      ScannersAgree(voc, args[n..], seen || IsCommand(voc, args[0]));
      TailsAlign(voc, args, seen);
      UnitRolesAgree(voc, args, seen);
      AgreementExtends(voc, args, ApplyRoles(voc, args, seen), CleanRoles(voc, args, seen), n);
    }
  }

  /* ---------- Cleaning is a partition ---------- */

  /** The arguments whose role is Plain, in order. */
  function Kept(args: seq<string>, roles: seq<Role>): seq<string>
    requires |args| == |roles|
  {
    if args == [] then []
    else (if roles[0] == Plain then [args[0]] else []) + Kept(args[1..], roles[1..])
  }

  /** Every argument is either kept, in its order, or dropped as a flag. */
  lemma {:induction false} CleaningPartitions(voc: Vocabulary, args: seq<string>, seen: bool)
    requires Coherent(voc)
    ensures Clean(voc, args, seen) == Kept(args, CleanRoles(voc, args, seen))
    decreases |args|
  {
    if args != [] {
      var n := UnitLength(voc, args, seen);
      var C := CleanRoles(voc, args, seen);
      var w := CleanWidth(voc, args, seen);
      CleanRolesUnfold(voc, args, seen);
      CleaningPartitions(voc, Drop(args, w), CleanNotes(voc, args[0], seen));
      assert args[n..] == Drop(args, w);
      KeptUnit(args, C, n);
    }
  }

  lemma KeptUnit(args: seq<string>, roles: seq<Role>, n: nat)
    requires |args| == |roles| && 1 <= n <= 2 && n <= |args|
    requires n == 2 ==> roles[1] == Operand
    ensures Kept(args, roles) == (if roles[0] == Plain then [args[0]] else []) + Kept(args[n..], roles[n..])
  {
    if n == 2 { assert args[1..][1..] == args[2..] && roles[1..][1..] == roles[2..]; }
  }

  /** Operands stand right behind their flags. */
  lemma {:induction false} OperandsFollowFlags(voc: Vocabulary, args: seq<string>, seen: bool)
    requires Coherent(voc)
    ensures var C := CleanRoles(voc, args, seen);
      forall p | 0 <= p < |args| && C[p] == Operand :: p > 0 && C[p - 1] == Flag
    decreases |args|
  {
    if args != [] {
      var n := UnitLength(voc, args, seen);
      var C := CleanRoles(voc, args, seen);
      var w := CleanWidth(voc, args, seen);
      CleanRolesUnfold(voc, args, seen);
      OperandsFollowFlags(voc, Drop(args, w), CleanNotes(voc, args[0], seen));
      forall p | 0 <= p < |args| && C[p] == Operand ensures p > 0 && C[p - 1] == Flag {
        if p >= n {
          assert C[n..][p - n] == Operand;
          assert C[n..][p - n - 1] == Flag;
        }
      }
    }
  }

  /* ---------- The config extractor ---------- */

  /** The extractor, which knows neither boolean operands nor `--restore`, still
      returns the operand of the first `--config` the applying scanner meets. */
  lemma {:induction false} ExtractorFindsAppliedConfig(voc: Vocabulary, args: seq<string>, seen: bool)
    requires Coherent(voc)
    ensures Extract(voc, args) == FirstConfig(args, ApplyRoles(voc, args, seen))
    decreases |args|
  {
    if args != [] {
      var seen' := seen || IsCommand(voc, args[0]);
      var w := ApplyWidth(voc, args, seen');
      var A := ApplyRoles(voc, args, seen);
      ApplyRolesUnfold(voc, args, seen);
      ExtractorFindsAppliedConfig(voc, Drop(args, w), seen');
      assert CoherentAt(voc, args[0]);
      if w == 2 && |args| > 1 {
        assert A[1..][1..] == A[2..] && args[1..][1..] == args[2..];
        if ApplyKind(voc, args[0]) != Config { FirstConfigSkipsOperand(args, A); }
        if ApplyKind(voc, args[0]) in {Restore, Bool} { ExtractorSkipsWord(voc, args, seen'); }
      }
    }
  }

  lemma FirstConfigSkipsOperand(args: seq<string>, roles: seq<Role>)
    requires |args| == |roles| > 1 && roles[1] == Operand && !(roles[0] == Flag && args[0] == "--config")
    ensures FirstConfig(args, roles) == FirstConfig(args[2..], roles[2..])
  {
    assert args[1..][1..] == args[2..] && roles[1..][1..] == roles[2..];
  }

  lemma ExtractorStep(voc: Vocabulary, args: seq<string>)
    requires args != [] && args[0] != "--config" && !voc.extractTakesValue(args[0])
    ensures Extract(voc, args) == Extract(voc, args[1..])
  {
  }

  /** An operand of `--restore` or of a boolean flag is no flag to the extractor. */
  lemma ExtractorSkipsWord(voc: Vocabulary, args: seq<string>, seen: bool)
    requires Coherent(voc)
    requires |args| > 1 && (NamesRestore(voc, seen, args) || HasBoolOperand(args))
    requires args[0] != "--config" && !voc.extractTakesValue(args[0])
    ensures Extract(voc, args) == Extract(voc, args[2..])
  {
    ExtractorStep(voc, args);
    assert CoherentAt(voc, args[1]);
    ExtractorStep(voc, args[1..]);
    assert args[1..][1..] == args[2..];
  }

  /* ---------- Cleaning is a normal form ---------- */

  predicate AllWords(voc: Vocabulary, args: seq<string>) {
    forall a | a in args :: CleanKind(voc, a) == Word
  }

  lemma {:induction false} CleanedAreWords(voc: Vocabulary, args: seq<string>, seen: bool)
    ensures AllWords(voc, Clean(voc, args, seen))
    decreases |args|
  {
    if args != [] {
      CleanedAreWords(voc, Drop(args, CleanWidth(voc, args, seen)), CleanNotes(voc, args[0], seen));
    }
  }

  lemma WordsAreNoUnits(voc: Vocabulary, args: seq<string>, seen: bool)
    requires Coherent(voc) && AllWords(voc, args) && args != []
    ensures CleanWidth(voc, args, seen) == ApplyWidth(voc, args, seen) == 1 && ApplyUnit(voc, args, seen) == []
    ensures CleanKind(voc, args[0]) == Word && Extract(voc, args) == Extract(voc, args[1..])
    ensures AllWords(voc, args[1..])
  {
    assert args[0] in args;
    KindsAgree(voc, args[0]);
    assert CoherentAt(voc, args[0]);
    assert args[0] != "--config";
  }

  lemma {:induction false} WordsAreUntouched(voc: Vocabulary, args: seq<string>, seen: bool)
    requires Coherent(voc) && AllWords(voc, args)
    ensures Clean(voc, args, seen) == args && Apply(voc, args, seen) == [] && Extract(voc, args) == None
    decreases |args|
  {
    if args != [] {
      WordsAreNoUnits(voc, args, seen);
      WordsAreNoUnits(voc, args, seen || IsCommand(voc, args[0]));
      CleanUnfold(voc, args, seen, args[1..]);
      ApplyUnfold(voc, args, seen, args[1..]);
      WordsAreUntouched(voc, args[1..], CleanNotes(voc, args[0], seen));
      WordsAreUntouched(voc, args[1..], seen || IsCommand(voc, args[0]));
    }
  }

  /** What cleaning leaves is left alone by all three scanners. */
  lemma CleanedIsNormal(voc: Vocabulary, args: seq<string>)
    requires Coherent(voc)
    ensures var command := Clean(voc, args, false);
      Clean(voc, command, false) == command && Apply(voc, command, false) == [] && Extract(voc, command) == None
  {
    CleanedAreWords(voc, args, false);
    WordsAreUntouched(voc, Clean(voc, args, false), false);
  }

  /* ---------- Inserting a global flag ---------- */

  lemma CleanUnfold(voc: Vocabulary, args: seq<string>, seen: bool, rest: seq<string>)
    requires args != [] && rest == Drop(args, CleanWidth(voc, args, seen))
    ensures Clean(voc, args, seen) ==
      (if CleanKind(voc, args[0]) == Word then [args[0]] else []) + Clean(voc, rest, CleanNotes(voc, args[0], seen))
  {
  }

  lemma ApplyUnfold(voc: Vocabulary, args: seq<string>, seen: bool, rest: seq<string>)
    requires args != [] && rest == Drop(args, ApplyWidth(voc, args, seen || IsCommand(voc, args[0])))
    ensures Apply(voc, args, seen) ==
      ApplyUnit(voc, args, seen || IsCommand(voc, args[0])) + Apply(voc, rest, seen || IsCommand(voc, args[0]))
  {
  }

  /** The cleaning scanner starts a unit where `pre` ends and `post` begins. */
  predicate CleanBoundary(voc: Vocabulary, pre: seq<string>, post: seq<string>, seen: bool)
    decreases |pre|
  {
    pre != [] ==>
      var w := CleanWidth(voc, pre + post, seen);
      w <= |pre| && CleanBoundary(voc, pre[w..], post, CleanNotes(voc, pre[0], seen))
  }

  predicate ApplyBoundary(voc: Vocabulary, pre: seq<string>, post: seq<string>, seen: bool)
    decreases |pre|
  {
    pre != [] ==>
      var seen' := seen || IsCommand(voc, pre[0]);
      var w := ApplyWidth(voc, pre + post, seen');
      w <= |pre| && ApplyBoundary(voc, pre[w..], post, seen')
  }

  lemma ValueFlagIsNoOperand(voc: Vocabulary, f: string)
    requires Coherent(voc)
    requires voc.cleanTakesValue(f)
    ensures StartsWithDash(f) && !IsBoolWord(f) && CleanKind(voc, f) == Value
    ensures f != "--config" ==> ApplyKind(voc, f) == Value
  {
    assert CoherentAt(voc, f);
  }

  lemma CleanWidthIgnoresInsertion(voc: Vocabulary, pre: seq<string>, post: seq<string>, f: string, v: string,
                                   seen: bool)
    requires pre != [] && CleanWidth(voc, pre + post, seen) <= |pre|
    requires StartsWithDash(f) && !IsBoolWord(f)
    ensures CleanWidth(voc, pre + ([f, v] + post), seen) == CleanWidth(voc, pre + post, seen)
  {
    if |pre| == 1 { assert (pre + ([f, v] + post))[1] == f; }
    else { assert (pre + ([f, v] + post))[1] == (pre + post)[1] == pre[1]; }
  }

  /** At the boundary itself: the pair is one unit, and nothing of it is kept. */
  lemma PairIsDropped(voc: Vocabulary, post: seq<string>, f: string, v: string, seen: bool)
    requires Coherent(voc)
    requires voc.cleanTakesValue(f)
    ensures Clean(voc, [f, v] + post, seen) == Clean(voc, post, seen)
  {
    ValueFlagIsNoOperand(voc, f);
    DropJoined([f, v], post, 2);
    CleanUnfold(voc, [f, v] + post, seen, post);
  }

  /** A global value flag and its value, put between any two units, leave the
      cleaned command as it was. */
  lemma {:induction false} InsertionKeepsCommand(voc: Vocabulary, pre: seq<string>, post: seq<string>,
                                                 f: string, v: string, seen: bool)
    requires Coherent(voc)
    requires CleanBoundary(voc, pre, post, seen) && voc.cleanTakesValue(f)
    ensures Clean(voc, pre + ([f, v] + post), seen) == Clean(voc, pre + post, seen)
    decreases |pre|
  {
    if pre == [] {
      assert pre + post == post;
      assert pre + ([f, v] + post) == [f, v] + post;
      PairIsDropped(voc, post, f, v, seen);
    } else {
      var w := CleanWidth(voc, pre + post, seen);
      ValueFlagIsNoOperand(voc, f);
      CleanWidthIgnoresInsertion(voc, pre, post, f, v, seen);
      InsertionKeepsCommand(voc, pre[w..], post, f, v, CleanNotes(voc, pre[0], seen));
      DropJoined(pre, post, w);
      DropJoined(pre, [f, v] + post, w);
      CleanUnfold(voc, pre + post, seen, pre[w..] + post);
      CleanUnfold(voc, pre + ([f, v] + post), seen, pre[w..] + ([f, v] + post));
    }
  }

  lemma UnitIsLocal(voc: Vocabulary, pre: seq<string>, post: seq<string>, seen: bool)
    requires pre != [] && ApplyWidth(voc, pre + post, seen) <= |pre|
    ensures ApplyWidth(voc, pre, seen) == ApplyWidth(voc, pre + post, seen)
    ensures ApplyUnit(voc, pre, seen) == ApplyUnit(voc, pre + post, seen)
  {
    if |pre| > 1 { assert (pre + post)[1] == pre[1]; }
  }

  /** The first unit of a split line, seen from the whole and from the first part. */
  lemma FirstUnitOfJoined(voc: Vocabulary, pre: seq<string>, post: seq<string>, seen: bool, w: nat)
    requires pre != [] && w == ApplyWidth(voc, pre + post, seen || IsCommand(voc, pre[0])) && w <= |pre|
    ensures var seen' := seen || IsCommand(voc, pre[0]); var unit := ApplyUnit(voc, pre, seen');
      && Apply(voc, pre + post, seen) == unit + Apply(voc, pre[w..] + post, seen')
      && Apply(voc, pre, seen) == unit + Apply(voc, pre[w..], seen')
      && ApplySeen(voc, pre, seen) == ApplySeen(voc, pre[w..], seen')
  {
    UnitIsLocal(voc, pre, post, seen || IsCommand(voc, pre[0]));
    DropJoined(pre, post, w);
    ApplyUnfold(voc, pre + post, seen, pre[w..] + post);
    ApplyUnfold(voc, pre, seen, pre[w..]);
    ApplySeenUnfold(voc, pre, seen, pre[w..]);
  }

  /** The settings of a line split at a unit boundary are those of its parts. */
  lemma {:induction false} SettingsConcatenate(voc: Vocabulary, pre: seq<string>, post: seq<string>, seen: bool)
    requires ApplyBoundary(voc, pre, post, seen)
    ensures Apply(voc, pre + post, seen) == Apply(voc, pre, seen) + Apply(voc, post, ApplySeen(voc, pre, seen))
    decreases |pre|
  {
    if pre == [] {
      assert pre + post == post;
    } else {
      var seen' := seen || IsCommand(voc, pre[0]);
      var w := ApplyWidth(voc, pre + post, seen');
      SettingsConcatenate(voc, pre[w..], post, seen');
      FirstUnitOfJoined(voc, pre, post, seen, w);
      var last := Apply(voc, post, ApplySeen(voc, pre[w..], seen'));
      ConcatIsAssociative(ApplyUnit(voc, pre, seen'), Apply(voc, pre[w..], seen'), last);
    }
  }

  lemma ApplySeenUnfold(voc: Vocabulary, args: seq<string>, seen: bool, rest: seq<string>)
    requires args != [] && rest == Drop(args, ApplyWidth(voc, args, seen || IsCommand(voc, args[0])))
    ensures ApplySeen(voc, args, seen) == ApplySeen(voc, rest, seen || IsCommand(voc, args[0]))
  {
  }

  lemma {:induction false} InsertionKeepsBoundary(voc: Vocabulary, pre: seq<string>, post: seq<string>,
                                                  f: string, v: string, seen: bool)
    requires ApplyBoundary(voc, pre, post, seen) && StartsWithDash(f) && !IsBoolWord(f)
    ensures ApplyBoundary(voc, pre, [f, v] + post, seen)
    decreases |pre|
  {
    if pre != [] {
      var seen' := seen || IsCommand(voc, pre[0]);
      var w := ApplyWidth(voc, pre + post, seen');
      if |pre| == 1 { assert (pre + ([f, v] + post))[1] == f; }
      else { assert (pre + ([f, v] + post))[1] == (pre + post)[1] == pre[1]; }
      InsertionKeepsBoundary(voc, pre[w..], post, f, v, seen');
    }
  }

  /** The same insertion adds exactly one setting, at its place in the order. */
  lemma InsertionAddsOneSetting(voc: Vocabulary, pre: seq<string>, post: seq<string>, f: string, v: string, seen: bool)
    requires Coherent(voc)
    requires ApplyBoundary(voc, pre, post, seen) && voc.cleanTakesValue(f) && f != "--config"
    ensures var before := Apply(voc, pre, seen); var after := Apply(voc, post, ApplySeen(voc, pre, seen));
      && Apply(voc, pre + post, seen) == before + after
      && Apply(voc, pre + ([f, v] + post), seen) == before + [Text(f, v)] + after
  {
    var seen' := ApplySeen(voc, pre, seen);
    ValueFlagIsNoOperand(voc, f);
    InsertionKeepsBoundary(voc, pre, post, f, v, seen);
    SettingsConcatenate(voc, pre, post, seen);
    SettingsConcatenate(voc, pre, [f, v] + post, seen);
    SettingsOfPair(voc, post, f, v, seen');
    ConcatIsAssociative(Apply(voc, pre, seen), [Text(f, v)], Apply(voc, post, seen'));
  }

  lemma SettingsOfPair(voc: Vocabulary, post: seq<string>, f: string, v: string, seen: bool)
    requires ApplyKind(voc, f) == Value && StartsWithDash(f)
    ensures Apply(voc, [f, v] + post, seen) == [Text(f, v)] + Apply(voc, post, seen)
  {
    DropJoined([f, v], post, 2);
    ApplyUnfold(voc, [f, v] + post, seen, post);
  }
}
