/**
 The certificate-authority decision, as it passes through the configuration
 files, the environment, the command line and the launch command.
 */
module CaDecision {
  import opened Wrappers
  import opened FlagScan

  /** What one configuration layer says: either field may be absent, or both present. */
  datatype Layer = Layer(cert: Option<string>, clear: Option<bool>)

  /** The state of the flags: a certificate to use, and the mark that clears one. */
  datatype CaState = CaState(cert: Option<string>, clear: bool)

  const NO_DECISION := CaState(None, false)

  /** The certificate fields of a merge; `other` is the higher layer. */
  function Merge(self: Layer, other: Layer): Layer {
    if other.cert.Some? then Layer(other.cert, Some(false))
    else match other.clear
      case Some(true) => Layer(None, Some(true))
      case Some(false) => Layer(self.cert, Some(false))
      case None => Layer(self.cert, self.clear)
  }

  function ResolveCaCert(config: Layer, env: Layer): CaState {
    if env.cert.Some? then CaState(env.cert, false)
    else if env.clear.Some? then
      CaState(if env.clear.value then None else config.cert, env.clear.value)
    else if config.cert.Some? then CaState(config.cert, false)
    else CaState(None, config.clear.GetOr(false))
  }

  /** The effect of one command-line setting on the two fields. */
  function ApplyCa(s: CaState, x: Setting): CaState {
    if x.Text? && x.flag == "--ca-cert" then CaState(Some(x.operand), false)
    else if x.Switch? && x.flag == "--no-ca-cert" then
      CaState(if x.value then None else s.cert, x.value)
    else s
  }

  predicate ConcernsCa(x: Setting) {
    (x.Text? && x.flag == "--ca-cert") || (x.Switch? && x.flag == "--no-ca-cert")
  }

  function ApplyAllCa(s: CaState, xs: seq<Setting>): CaState
    decreases |xs|
  {
    if xs == [] then s else ApplyAllCa(ApplyCa(s, xs[0]), xs[1..])
  }

  lemma {:induction false} ApplyAllConcatenates(s: CaState, xs: seq<Setting>, ys: seq<Setting>)
    ensures ApplyAllCa(s, xs + ys) == ApplyAllCa(ApplyAllCa(s, xs), ys)
    decreases |xs|
  {
    if xs == [] {
      assert xs + ys == ys;
    } else {
      assert (xs + ys)[1..] == xs[1..] + ys;
      ApplyAllConcatenates(ApplyCa(s, xs[0]), xs[1..], ys);
    }
  }

  /* ---------- The decision on its own terms ---------- */

  /** What a source of settings asks for, whatever the form it asks in. */
  datatype Opinion = Silent | Use(cert: string) | Remove | Unclear

  /** A certificate outweighs a clear mark beside it. */
  function OpinionOf(l: Layer): Opinion {
    if l.cert.Some? then Use(l.cert.value)
    else match l.clear
      case Some(true) => Remove
      case Some(false) => Unclear
      case None => Silent
  }

  function OpinionOfSetting(x: Setting): Opinion {
    if x.Text? && x.flag == "--ca-cert" then Use(x.operand)
    else if x.Switch? && x.flag == "--no-ca-cert" then (if x.value then Remove else Unclear)
    else Silent
  }

  function Decide(s: CaState, o: Opinion): CaState {
    match o
    case Silent => s
    case Use(cert) => CaState(Some(cert), false)
    case Remove => CaState(None, true)
    case Unclear => s.(clear := false)
  }

  /** The opinions from the weakest to the strongest source. */
  function DecideAll(opinions: seq<Opinion>): CaState {
    if opinions == [] then NO_DECISION
    else Decide(DecideAll(opinions[..|opinions| - 1]), opinions[|opinions| - 1])
  }

  /** `i` is the last opinion that settles which certificate, if any, is used. */
  predicate Settles(opinions: seq<Opinion>, i: nat) {
    && i < |opinions| && (opinions[i].Use? || opinions[i].Remove?)
    && forall j | i < j < |opinions| :: !opinions[j].Use? && !opinions[j].Remove?
  }

  /** `i` removes the certificate, and nothing stronger says anything at all. */
  predicate Clears(opinions: seq<Opinion>, i: nat) {
    i < |opinions| && opinions[i] == Remove && forall j | i < j < |opinions| :: opinions[j] == Silent
  }

  /** Precedence, said without any fold: the certificate used is the one named by
      the strongest source that names or removes one, and the clear mark is set
      exactly when the strongest source that says anything removes it. So the
      two are never set together. */
  lemma {:induction false} StrongestSourceDecides(opinions: seq<Opinion>)
    ensures var s := DecideAll(opinions);
      && (forall c: string :: s.cert == Some(c) <==> exists i: nat :: Settles(opinions, i) && opinions[i] == Use(c))
      && (s.clear <==> exists i: nat :: Clears(opinions, i))
      && !(s.cert.Some? && s.clear)
    decreases |opinions|
  {
    if opinions != [] {
      var n := |opinions| - 1;
      var front := opinions[..n];
      StrongestSourceDecides(front);
      var s := DecideAll(opinions);
      forall c: string
        ensures s.cert == Some(c) <==> exists i: nat :: Settles(opinions, i) && opinions[i] == Use(c)
      {
        LastSettles(opinions, c);
      }
      ClearMarkFollows(opinions);
    }
  }

  lemma LastSettles(opinions: seq<Opinion>, c: string)
    requires opinions != []
    requires var front := opinions[..|opinions| - 1];
      DecideAll(front).cert == Some(c) <==> exists i: nat :: Settles(front, i) && front[i] == Use(c)
    ensures DecideAll(opinions).cert == Some(c) <==> exists i: nat :: Settles(opinions, i) && opinions[i] == Use(c)
  {
    var n := |opinions| - 1;
    var front := opinions[..n];
    if opinions[n].Use? || opinions[n].Remove? {
      assert Settles(opinions, n);
      assert forall i: nat | i < n :: !Settles(opinions, i);
    } else {
      assert forall i: nat :: Settles(opinions, i) <==> Settles(front, i);
      assert forall i: nat | i < n :: front[i] == opinions[i];
    }
  }

  lemma ClearMarkFollows(opinions: seq<Opinion>)
    requires opinions != []
    requires var front := opinions[..|opinions| - 1];
      DecideAll(front).clear <==> exists i: nat :: Clears(front, i)
    ensures DecideAll(opinions).clear <==> exists i: nat :: Clears(opinions, i)
  {
    var n := |opinions| - 1;
    var front := opinions[..n];
    match opinions[n]
    case Silent => assert forall i: nat :: Clears(opinions, i) <==> Clears(front, i);
    case Remove => assert Clears(opinions, n);
    case _ => assert forall i: nat :: !Clears(opinions, i);
  }

  /* ---------- Every layer of the code makes that decision ---------- */

  /** The state a configuration amounts to when the environment is silent. */
  function StateOf(config: Layer): CaState {
    ResolveCaCert(config, Layer(None, None))
  }

  lemma MergeDecides(self: Layer, other: Layer)
    ensures StateOf(Merge(self, other)) == Decide(StateOf(self), OpinionOf(other))
  {
  }

  lemma EnvironmentDecides(config: Layer, env: Layer)
    ensures ResolveCaCert(config, env) == Decide(StateOf(config), OpinionOf(env))
  {
  }

  lemma SettingDecides(s: CaState, x: Setting)
    ensures ApplyCa(s, x) == Decide(s, OpinionOfSetting(x))
  {
  }

  /** Any number of configuration layers merged upwards; a lone one stays as it is. */
  function MergeAll(layers: seq<Layer>): Layer {
    if layers == [] then Layer(None, None)
    else if |layers| == 1 then layers[0]
    else Merge(MergeAll(layers[..|layers| - 1]), layers[|layers| - 1])
  }

  function Opinions(layers: seq<Layer>): (r: seq<Opinion>)
    ensures |r| == |layers|
  {
    seq(|layers|, i requires 0 <= i < |layers| => OpinionOf(layers[i]))
  }

  function CliOpinions(xs: seq<Setting>): (r: seq<Opinion>)
    ensures |r| == |xs|
  {
    seq(|xs|, i requires 0 <= i < |xs| => OpinionOfSetting(xs[i]))
  }

  lemma {:induction false} MergedLayersDecide(layers: seq<Layer>)
    ensures StateOf(MergeAll(layers)) == DecideAll(Opinions(layers))
    decreases |layers|
  {
    if layers != [] {
      var n := |layers| - 1;
      MergedLayersDecide(layers[..n]);
      if n > 0 { MergeDecides(MergeAll(layers[..n]), layers[n]); }
      assert Opinions(layers)[..n] == Opinions(layers[..n]);
    }
  }

  lemma {:induction false} SettingsDecide(opinions: seq<Opinion>, xs: seq<Setting>)
    ensures ApplyAllCa(DecideAll(opinions), xs) == DecideAll(opinions + CliOpinions(xs))
    decreases |xs|
  {
    if xs == [] {
      assert opinions + CliOpinions(xs) == opinions;
    } else {
      var next := opinions + [OpinionOfSetting(xs[0])];
      assert next[..|opinions|] == opinions;
      SettingDecides(DecideAll(opinions), xs[0]);
      SettingsDecide(next, xs[1..]);
      assert next + CliOpinions(xs[1..]) == opinions + CliOpinions(xs);
    }
  }

  /** The sources in order of strength: configuration layers, environment, command line. */
  function AllOpinions(voc: Vocabulary, layers: seq<Layer>, env: Layer, args: seq<string>): seq<Opinion> {
    Opinions(layers) + [OpinionOf(env)] + CliOpinions(Apply(voc, args, false))
  }

  /** The flags after merging any layers, resolving the environment and applying
      any command line hold exactly the decision of all the sources in order,
      and never a certificate together with the clear mark. */
  lemma FlagsHoldTheDecision(voc: Vocabulary, layers: seq<Layer>, env: Layer, args: seq<string>)
    ensures var s := ApplyAllCa(ResolveCaCert(MergeAll(layers), env), Apply(voc, args, false));
      s == DecideAll(AllOpinions(voc, layers, env, args)) && !(s.cert.Some? && s.clear)
  {
    var below := Opinions(layers);
    var withEnv := below + [OpinionOf(env)];
    MergedLayersDecide(layers);
    EnvironmentDecides(MergeAll(layers), env);
    assert withEnv[..|below|] == below;
    SettingsDecide(withEnv, Apply(voc, args, false));
    StrongestSourceDecides(AllOpinions(voc, layers, env, args));
  }

  /* ---------- Where a merge falls short ---------- */

  predicate HoldsBoth(l: Layer) { l.cert.Some? && l.clear == Some(true) }

  /** A merged configuration, unlike the flags, may still hold both: exactly when
      the lower layer did and the higher one is silent. */
  lemma MergeHoldsBoth(self: Layer, other: Layer)
    ensures HoldsBoth(Merge(self, other)) <==> HoldsBoth(self) && OpinionOf(other) == Silent
  {
  }

  /** Merging is not associative: a layer that only withdraws a clear mark brings
      an earlier certificate back if it is merged with the removal first. It
      differs in exactly these cases. */
  lemma MergeAssociatesUnlessWithdrawn(a: Layer, b: Layer, c: Layer)
    ensures Merge(Merge(a, b), c) == Merge(a, Merge(b, c))
      <==> !(a.cert.Some? && OpinionOf(b) == Remove && OpinionOf(c) == Unclear)
  {
  }

  /** A certificate beside a clear mark survives a silent layer, though not the resolution. */
  lemma BothMayBeHeld()
    ensures var both := Merge(Layer(Some("x"), Some(true)), Layer(None, None));
            HoldsBoth(both) && ResolveCaCert(both, Layer(None, None)) == CaState(Some("x"), false)
  {
  }

  /** Merged from the left, the certificate stays removed; merged from the right, it is back. */
  lemma WithdrawnRemoval()
    ensures var named, removed, withdrawn := Layer(Some("x"), None), Layer(None, Some(true)), Layer(None, Some(false));
            && Merge(Merge(named, removed), withdrawn) == Layer(None, Some(false))
            && Merge(named, Merge(removed, withdrawn)) == Layer(Some("x"), Some(false))
  {
  }

  /* ---------- The launch command ---------- */

  datatype Json = JsonText(text: string) | JsonBool(value: bool) | JsonOther

  predicate IsLaunch(cmd: map<string, Json>) { "action" in cmd && cmd["action"] == JsonText("launch") }

  function WithCaCert(cmd: map<string, Json>, s: CaState): map<string, Json> {
    if !IsLaunch(cmd) then cmd
    else
      var withCert := if s.cert.Some? then cmd["caCert" := JsonText(s.cert.value)] else cmd;
      if s.clear then withCert["clearCaCert" := JsonBool(true)] else withCert
  }

  class Command {
    var fields: map<string, Json>

    constructor (fields: map<string, Json>)
      ensures this.fields == fields
    {
      this.fields := fields;
    }

    /** Only a launch is changed. It gains the certificate and the clear mark of
        the flags where they have them; what it has otherwise stays. */
    method AttachCaCert(flags: CaState)
      modifies this
      ensures fields == WithCaCert(old(fields), flags)
      ensures !IsLaunch(old(fields)) ==> fields == old(fields)
      ensures fields - {"caCert", "clearCaCert"} == old(fields) - {"caCert", "clearCaCert"}
      ensures IsLaunch(old(fields)) && flags.cert.Some? ==>
        "caCert" in fields && fields["caCert"] == JsonText(flags.cert.value)
      ensures IsLaunch(old(fields)) && flags.clear ==>
        "clearCaCert" in fields && fields["clearCaCert"] == JsonBool(true)
      ensures "caCert" !in old(fields) ==> ("caCert" in fields <==> IsLaunch(old(fields)) && flags.cert.Some?)
      ensures "clearCaCert" !in old(fields) ==> ("clearCaCert" in fields <==> IsLaunch(old(fields)) && flags.clear)
    {
      assert "caCert"[1] == 'a' && "clearCaCert"[1] == 'l';
      if "action" !in fields || fields["action"] != JsonText("launch") {
        return;
      }
      if flags.cert.Some? {
        fields := fields["caCert" := JsonText(flags.cert.value)];
      }
      if flags.clear {
        fields := fields["clearCaCert" := JsonBool(true)];
      }
    }
  }

  lemma AttachedFields(cmd: map<string, Json>, s: CaState)
    requires "caCert" !in cmd && "clearCaCert" !in cmd
    ensures var sent := WithCaCert(cmd, s);
      && ("caCert" in sent <==> IsLaunch(cmd) && s.cert.Some?)
      && ("caCert" in sent ==> sent["caCert"] == JsonText(s.cert.value))
      && ("clearCaCert" in sent <==> IsLaunch(cmd) && s.clear)
      && ("clearCaCert" in sent ==> sent["clearCaCert"] == JsonBool(true))
      && sent - {"caCert", "clearCaCert"} == cmd
  {
    assert "caCert"[1] == 'a' && "clearCaCert"[1] == 'l';
  }

  /** A command that comes without certificate fields leaves with at most one of
      them, the one the decision of all the sources calls for, and only if it is
      a launch; its other fields are untouched. */
  lemma LaunchCarriesOneDecision(voc: Vocabulary, cmd: map<string, Json>, layers: seq<Layer>, env: Layer,
                                 args: seq<string>)
    requires "caCert" !in cmd && "clearCaCert" !in cmd
    ensures var sent := WithCaCert(cmd, ApplyAllCa(ResolveCaCert(MergeAll(layers), env), Apply(voc, args, false)));
      var decision := DecideAll(AllOpinions(voc, layers, env, args));
      var launches := "action" in cmd && cmd["action"] == JsonText("launch");
      && ("caCert" in sent <==> launches && decision.cert.Some?)
      && ("caCert" in sent ==> sent["caCert"] == JsonText(decision.cert.value))
      && ("clearCaCert" in sent <==> launches && decision.clear)
      && ("clearCaCert" in sent ==> sent["clearCaCert"] == JsonBool(true))
      && !("caCert" in sent && "clearCaCert" in sent)
      && sent - {"caCert", "clearCaCert"} == cmd
  {
    FlagsHoldTheDecision(voc, layers, env, args);
    AttachedFields(cmd, ApplyAllCa(ResolveCaCert(MergeAll(layers), env), Apply(voc, args, false)));
  }
}
