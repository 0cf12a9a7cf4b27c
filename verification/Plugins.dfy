/**
 Plugin lists: later entries shadow earlier ones of the same name, across the
 configuration layers, in lookups, in capability queries and when saving.
 */
module Plugins {
  import opened Sequences
  import opened Wrappers

  datatype Plugin = Plugin(name: string, command: string, capabilities: seq<string>)

  predicate HasCapability(p: Plugin, capability: string) { capability in p.capabilities }

  /** The last plugin of the name. */
  function FindPlugin(plugins: seq<Plugin>, name: string): (r: Option<Plugin>)
    ensures r.Some? ==> r.value in plugins && r.value.name == name
    ensures r.None? ==> forall p | p in plugins :: p.name != name
  {
    if plugins == [] then None
    else
      var last := plugins[|plugins| - 1];
      if last.name == name then Some(last) else FindPlugin(plugins[..|plugins| - 1], name)
  }

  function Names(plugins: seq<Plugin>): set<string> { set p | p in plugins :: p.name }

  /** The entry at `i` is the one a lookup of its name returns. */
  predicate Effective(plugins: seq<Plugin>, i: nat)
    requires i < |plugins|
  {
    plugins[i].name !in Names(plugins[i + 1..])
  }

  /** The entry at `i`, if it is effective and has the capability. */
  function Own(plugins: seq<Plugin>, capability: string, i: nat): (own: seq<Plugin>)
    requires i < |plugins|
    ensures |own| <= 1
  {
    if Effective(plugins, i) && HasCapability(plugins[i], capability) then [plugins[i]] else []
  }

  /** In source order, the effective entries among the first `n` that have the capability. */
  function EffectiveWith(plugins: seq<Plugin>, capability: string, n: nat): seq<Plugin>
    requires n <= |plugins|
  {
    if n == 0 then []
    else EffectiveWith(plugins, capability, n - 1) + Own(plugins, capability, n - 1)
  }

  function Reverse<T>(s: seq<T>): seq<T> {
    if s == [] then [] else Reverse(s[1..]) + [s[0]]
  }

  method ResolvedPluginsWithCapability(plugins: seq<Plugin>, capability: string) returns (resolved: seq<Plugin>)
    ensures resolved == EffectiveWith(plugins, capability, |plugins|)
  {
    hide Reverse, EffectiveWith;
    resolved := [];
    var seen: set<string> := {};
    var i := |plugins|;
    ReverseNothing<Plugin>();
    AllSelected(plugins, capability);
    while i > 0
      invariant 0 <= i <= |plugins| && seen == Names(plugins[i..])
      invariant (EffectiveWith(plugins, capability, i) + Reverse(resolved)
                 == EffectiveWith(plugins, capability, |plugins|))
    {
      i := i - 1;
      var plugin := plugins[i];
      SelectOne(plugins, capability, i, resolved);
      assert plugins[i..] == [plugin] + plugins[i + 1..];
      ghost var before := resolved;
      if plugin.name !in seen {
        seen := seen + {plugin.name};
        if HasCapability(plugin, capability) {
          resolved := resolved + [plugin];
        }
      }
      assert resolved == before + Own(plugins, capability, i);
    }
    NothingSelected(plugins, capability);
    resolved := ReverseInPlace(resolved);
  }

  lemma ReverseNothing<T>()
    ensures Reverse<T>([]) == []
  {
  }

  lemma AllSelected(plugins: seq<Plugin>, capability: string)
    ensures EffectiveWith(plugins, capability, |plugins|) + [] == EffectiveWith(plugins, capability, |plugins|)
  {
  }

  lemma NothingSelected(plugins: seq<Plugin>, capability: string)
    ensures EffectiveWith(plugins, capability, 0) == []
  {
  }

  lemma SelectOne(plugins: seq<Plugin>, capability: string, i: nat, resolved: seq<Plugin>)
    requires i < |plugins|
    ensures EffectiveWith(plugins, capability, i + 1) + Reverse(resolved) ==
            EffectiveWith(plugins, capability, i) +
            Reverse(resolved + Own(plugins, capability, i))
  {
    hide Effective;
    ReverseExtended(resolved, plugins[i]);
    assert resolved + [] == resolved;
  }

  lemma {:induction false} ReverseExtended<T>(s: seq<T>, x: T)
    ensures Reverse(s + [x]) == [x] + Reverse(s)
  {
    if s == [] {
      assert s + [x] == [x];
    } else {
      assert (s + [x])[1..] == s[1..] + [x];
      ReverseExtended(s[1..], x);
    }
  }

  lemma {:induction false} ReverseAt<T>(s: seq<T>, k: nat)
    requires k < |s|
    ensures |Reverse(s)| == |s| && Reverse(s)[k] == s[|s| - 1 - k]
  {
    if |s| > 1 { ReverseAt(s[1..], if k < |s| - 1 then k else 0); }
  }

  method ReverseInPlace<T>(s: seq<T>) returns (r: seq<T>)
    ensures r == Reverse(s)
  {
    r := s;
    for i := 0 to |s| / 2
      invariant |r| == |s|
      invariant forall k | 0 <= k < i :: r[k] == s[|s| - 1 - k] && r[|s| - 1 - k] == s[k]
      invariant forall k | i <= k < |s| - i :: r[k] == s[k]
    {
      r := r[i := r[|s| - 1 - i]][|s| - 1 - i := r[i]];
    }
    assert |s| == 0 ==> Reverse(s) == [];
    forall k | 0 <= k < |s| ensures |Reverse(s)| == |s| && r[k] == Reverse(s)[k] {
      ReverseAt(s, k);
    }
  }

  /* ---------- Lookup and query agree ---------- */

  lemma {:induction false} FindConcat(a: seq<Plugin>, b: seq<Plugin>, name: string)
    ensures FindPlugin(a + b, name) == FindPlugin(b, name).Or(FindPlugin(a, name))
    decreases |b|
  {
    if b == [] {
      assert a + b == a;
    } else {
      assert (a + b)[..|a + b| - 1] == a + b[..|b| - 1];
      FindConcat(a, b[..|b| - 1], name);
    }
  }

  lemma FindLast(plugins: seq<Plugin>, last: Plugin)
    requires plugins != [] && plugins[|plugins| - 1] == last
    ensures FindPlugin(plugins, last.name) == Some(last)
  {
  }

  lemma NamesAreFound(plugins: seq<Plugin>, name: string)
    ensures name in Names(plugins) <==> FindPlugin(plugins, name).Some?
  {
    hide FindPlugin;
    if FindPlugin(plugins, name).Some? { assert FindPlugin(plugins, name).value.name in Names(plugins); }
  }

  /** An entry is effective exactly when looking up its name ends at it. */
  lemma EffectiveMeansFound(plugins: seq<Plugin>, i: nat)
    requires i < |plugins|
    ensures Effective(plugins, i) <==> FindPlugin(plugins[i + 1..], plugins[i].name) == None
    ensures Effective(plugins, i) ==> FindPlugin(plugins, plugins[i].name) == Some(plugins[i])
  {
    hide FindPlugin, Names;
    var first, rest, name := plugins[..i + 1], plugins[i + 1..], plugins[i].name;
    FindLast(first, plugins[i]);
    NamesAreFound(rest, name);
    assert plugins == first + rest;
    FindConcat(first, rest, name);
  }

  lemma {:induction false} SelectedAreFound(plugins: seq<Plugin>, capability: string, n: nat)
    requires n <= |plugins|
    ensures forall p | p in EffectiveWith(plugins, capability, n) ::
              FindPlugin(plugins, p.name) == Some(p) && HasCapability(p, capability)
    ensures forall p | p in EffectiveWith(plugins, capability, n) ::
              exists i | 0 <= i < n :: plugins[i] == p && Effective(plugins, i)
  {
    hide FindPlugin, Effective;
    if n > 0 {
      SelectedAreFound(plugins, capability, n - 1);
      EffectiveMeansFound(plugins, n - 1);
    }
  }

  lemma {:induction false} EffectiveIsSelected(plugins: seq<Plugin>, capability: string, n: nat, i: nat)
    requires i < n <= |plugins| && Effective(plugins, i) && HasCapability(plugins[i], capability)
    ensures plugins[i] in EffectiveWith(plugins, capability, n)
  {
    if i < n - 1 { EffectiveIsSelected(plugins, capability, n - 1, i); }
  }

  lemma {:induction false} FoundIsEffective(plugins: seq<Plugin>, name: string) returns (i: nat)
    requires FindPlugin(plugins, name).Some?
    ensures i < |plugins| && Effective(plugins, i) && plugins[i] == FindPlugin(plugins, name).value
    decreases |plugins|
  {
    var n := |plugins| - 1;
    if plugins[n].name == name {
      i := n;
    } else {
      i := FoundIsEffective(plugins[..n], name);
      assert plugins[i + 1..] == plugins[..n][i + 1..] + [plugins[n]];
    }
  }

  predicate NamesDiffer(plugins: seq<Plugin>) {
    forall i, j | 0 <= i < j < |plugins| :: plugins[i].name != plugins[j].name
  }

  lemma SelectedNameIsNotRepeated(plugins: seq<Plugin>, capability: string, n: nat)
    requires n < |plugins|
    ensures forall q | q in EffectiveWith(plugins, capability, n) :: q.name != plugins[n].name
  {
    SelectedAreFound(plugins, capability, n);
    hide EffectiveWith, FindPlugin;
    forall q | q in EffectiveWith(plugins, capability, n) ensures q.name != plugins[n].name {
      var i :| 0 <= i < n && plugins[i] == q && Effective(plugins, i);
      assert plugins[i + 1..][n - 1 - i] == plugins[n];
    }
  }

  lemma {:induction false} SelectedNamesDiffer(plugins: seq<Plugin>, capability: string, n: nat)
    requires n <= |plugins|
    ensures NamesDiffer(EffectiveWith(plugins, capability, n))
  {
    hide NamesDiffer, Effective, FindPlugin;
    if n == 0 {
      NoNamesDiffer();
    } else {
      SelectedNamesDiffer(plugins, capability, n - 1);
      SelectedNameIsNotRepeated(plugins, capability, n - 1);
      var s := EffectiveWith(plugins, capability, n - 1);
      OneMoreNameDiffers(s, plugins[n - 1]);
      assert s + [] == s;
    }
  }

  lemma NoNamesDiffer()
    ensures NamesDiffer([])
  {
  }

  lemma OneMoreNameDiffers(plugins: seq<Plugin>, p: Plugin)
    requires NamesDiffer(plugins) && forall q | q in plugins :: q.name != p.name
    ensures NamesDiffer(plugins + [p])
  {
  }

  /** The query returns, once each, exactly the plugins that a lookup of their
      own name returns and that declare the capability. */
  lemma QueryRefinesLookup(plugins: seq<Plugin>, capability: string, name: string)
    ensures var resolved := EffectiveWith(plugins, capability, |plugins|);
            && (forall p | p in resolved :: FindPlugin(plugins, p.name) == Some(p) && capability in p.capabilities)
            && NamesDiffer(resolved)
            && (var found := FindPlugin(plugins, name);
                found.Some? && capability in found.value.capabilities <==> exists p | p in resolved :: p.name == name)
  {
    SelectedAreFound(plugins, capability, |plugins|);
    SelectedNamesDiffer(plugins, capability, |plugins|);
    var found := FindPlugin(plugins, name);
    if found.Some? && HasCapability(found.value, capability) {
      var i := FoundIsEffective(plugins, name);
      EffectiveIsSelected(plugins, capability, |plugins|, i);
      assert plugins[i].name == name;
    }
  }

  /* ---------- Two configuration layers ---------- */

  /** The plugin lists of two layers, the stronger one last. */
  function MergedPlugins(user: Option<seq<Plugin>>, project: Option<seq<Plugin>>): Option<seq<Plugin>> {
    if user.Some? && project.Some? then Some(user.value + project.value) else project.Or(user)
  }

  function Unshadowed(plugins: seq<Plugin>, names: set<string>): seq<Plugin> {
    if plugins == [] then []
    else (if plugins[0].name in names then [] else [plugins[0]]) + Unshadowed(plugins[1..], names)
  }

  lemma {:induction false} UnshadowedConcat(a: seq<Plugin>, b: seq<Plugin>, names: set<string>)
    ensures Unshadowed(a + b, names) == Unshadowed(a, names) + Unshadowed(b, names)
  {
    if a == [] {
      assert a + b == b;
    } else {
      assert (a + b)[1..] == a[1..] + b;
      UnshadowedConcat(a[1..], b, names);
    }
  }

  lemma OwnInMerged(user: seq<Plugin>, project: seq<Plugin>, capability: string, i: nat)
    ensures i < |user| ==> (Own(user + project, capability, i)
                            == Unshadowed(Own(user, capability, i), Names(project)))
    ensures i < |project| ==> Own(user + project, capability, |user| + i) == Own(project, capability, i)
  {
    var all := user + project;
    if i < |user| {
      assert all[i + 1..] == user[i + 1..] + project && all[i] == user[i];
      assert Names(all[i + 1..]) == Names(user[i + 1..]) + Names(project);
      assert [user[i]][1..] == [];
    }
    if i < |project| { assert all[|user| + i + 1..] == project[i + 1..]; }
  }

  lemma {:induction false} MergedFirst(user: seq<Plugin>, project: seq<Plugin>, capability: string, n: nat)
    requires n <= |user|
    ensures EffectiveWith(user + project, capability, n) ==
            Unshadowed(EffectiveWith(user, capability, n), Names(project))
  {
    hide Own;
    if n > 0 {
      MergedFirst(user, project, capability, n - 1);
      OwnInMerged(user, project, capability, n - 1);
      UnshadowedConcat(EffectiveWith(user, capability, n - 1), Own(user, capability, n - 1), Names(project));
    }
  }

  lemma {:induction false} MergedSecond(user: seq<Plugin>, project: seq<Plugin>, capability: string, n: nat)
    requires n <= |project|
    ensures EffectiveWith(user + project, capability, |user| + n) ==
            EffectiveWith(user + project, capability, |user|) + EffectiveWith(project, capability, n)
  {
    hide Own;
    if n > 0 {
      MergedSecond(user, project, capability, n - 1);
      OwnInMerged(user, project, capability, n - 1);
    }
  }

  /** Over merged layers a query gives the user's plugins that the project does
      not shadow, then the project's; a lookup prefers the project's. */
  lemma ProjectShadowsUser(user: Option<seq<Plugin>>, project: Option<seq<Plugin>>, capability: string, name: string)
    ensures var u, p, merged := user.GetOr([]), project.GetOr([]), MergedPlugins(user, project).GetOr([]);
            && (EffectiveWith(merged, capability, |merged|)
                == Unshadowed(EffectiveWith(u, capability, |u|), Names(p)) + EffectiveWith(p, capability, |p|))
            && FindPlugin(merged, name) == FindPlugin(p, name).Or(FindPlugin(u, name))
  {
    hide EffectiveWith, FindPlugin, Names;
    var u, p := user.GetOr([]), project.GetOr([]);
    assert u + [] == u && [] + p == p;
    assert MergedPlugins(user, project).GetOr([]) == u + p;
    MergedFirst(u, p, capability, |u|);
    MergedSecond(u, p, capability, |p|);
    FindConcat(u, p, name);
  }

  /* ---------- Saving a plugin ---------- */

  /** An entry of the `plugins` array as it stands in the file: its name, when
      that is a string, and all that is written there. */
  datatype Entry = Entry(name: Option<string>, written: string)

  function Others(entries: seq<Entry>, name: string): seq<Entry> {
    if entries == [] then []
    else (if entries[0].name == Some(name) then [] else [entries[0]]) + Others(entries[1..], name)
  }

  function Saved(entries: seq<Entry>, name: string, written: string): seq<Entry> {
    Others(entries, name) + [Entry(Some(name), written)]
  }

  /** Replace every entry of this name by the new one, at the end. */
  method ReplaceEntry(entries: seq<Entry>, name: string, written: string) returns (plugins: seq<Entry>)
    ensures plugins == Saved(entries, name, written)
  {
    hide Others;
    plugins := [];
    OthersStep(entries, 0, name);
    for i := 0 to |entries|
      invariant plugins + Others(entries[i..], name) == Others(entries, name)
    {
      OthersStep(entries, i, name);
      if entries[i].name.None? || entries[i].name.value != name {
        plugins := plugins + [entries[i]];
      }
    }
    OthersStep(entries, |entries|, name);
    plugins := plugins + [Entry(Some(name), written)];
  }

  lemma OthersStep(entries: seq<Entry>, i: nat, name: string)
    requires i <= |entries|
    ensures i == 0 ==> [] + Others(entries[i..], name) == Others(entries, name)
    ensures if i == |entries| then Others(entries[i..], name) == []
            else (Others(entries[i..], name)
                  == (if entries[i].name == Some(name) then [] else [entries[i]]) + Others(entries[i + 1..], name))
  {
    assert entries[0..] == entries;
    if i < |entries| { assert entries[i..][1..] == entries[i + 1..]; }
  }

  /** The last entry of the name. */
  function FindEntry(entries: seq<Entry>, name: string): Option<Entry> {
    if entries == [] then None
    else
      var last := entries[|entries| - 1];
      if last.name == Some(name) then Some(last) else FindEntry(entries[..|entries| - 1], name)
  }

  lemma {:induction false} OthersConcat(a: seq<Entry>, b: seq<Entry>, name: string)
    ensures Others(a + b, name) == Others(a, name) + Others(b, name)
  {
    if a == [] {
      assert a + b == b;
    } else {
      assert (a + b)[1..] == a[1..] + b;
      OthersConcat(a[1..], b, name);
    }
  }

  lemma {:induction false} OthersOfOthers(entries: seq<Entry>, a: string, b: string)
    ensures Others(Others(entries, a), b) == Others(Others(entries, b), a)
    ensures Others(Others(entries, a), a) == Others(entries, a)
    ensures forall e | e in Others(entries, a) :: e.name != Some(a)
  {
    if entries != [] {
      var first, rest := entries[0], entries[1..];
      OthersOfOthers(rest, a, b);
      OthersConcat(if first.name == Some(a) then [] else [first], Others(rest, a), b);
      OthersConcat(if first.name == Some(b) then [] else [first], Others(rest, b), a);
      OthersConcat(if first.name == Some(a) then [] else [first], Others(rest, a), a);
    }
  }

  lemma {:induction false} OthersKeepOtherLookups(entries: seq<Entry>, name: string, other: string)
    requires other != name
    ensures FindEntry(Others(entries, name), other) == FindEntry(entries, other)
    decreases |entries|
  {
    if entries != [] {
      var n := |entries| - 1;
      var last := entries[n];
      assert entries == entries[..n] + [last];
      OthersConcat(entries[..n], [last], name);
      OthersKeepOtherLookups(entries[..n], name, other);
      var kept := Others(entries[..n], name);
      assert [last][1..] == [];
      if last.name != Some(name) {
        assert Others(entries, name) == kept + [last] && (kept + [last])[..|kept|] == kept;
      } else {
        assert Others(entries, name) == kept;
      }
    }
  }

  /** After saving, a lookup of the name finds the new entry, which is its only
      one; entries of other names and without a name stay as they were, in
      order; lookups of other names do not change; and of two saves under one
      name only the later leaves a trace. */
  lemma SavingReplaces(entries: seq<Entry>, name: string, written: string, other: string, earlier: string)
    ensures FindEntry(Saved(entries, name, written), name) == Some(Entry(Some(name), written))
    ensures forall i | 0 <= i < |Saved(entries, name, written)| - 1 ::
              Saved(entries, name, written)[i].name != Some(name)
    ensures Others(Saved(entries, name, written), name) == Others(entries, name)
    ensures other != name ==> FindEntry(Saved(entries, name, written), other) == FindEntry(entries, other)
    ensures Saved(Saved(entries, name, earlier), name, written) == Saved(entries, name, written)
  {
    hide Others, FindEntry;
    var kept, e, before := Others(entries, name), Entry(Some(name), written), Entry(Some(name), earlier);
    LastEntryIsFound(kept, e);
    OthersOfOthers(entries, name, other);
    OthersConcat(kept, [e], name);
    OthersConcat(kept, [before], name);
    OthersOfOwn(e);
    OthersOfOwn(before);
    assert kept + [] == kept;
    if other != name {
      OtherLookupPassesLast(kept, e, other);
      OthersKeepOtherLookups(entries, name, other);
    }
  }

  /** Saving judges each entry by itself: one of the name goes, any other stays in
      its place, also one without a name. */
  lemma EachEntryIsJudged(a: seq<Entry>, e: Entry, b: seq<Entry>, name: string, written: string)
    ensures Saved(a + [e] + b, name, written) ==
      Others(a, name) + (if e.name == Some(name) then [] else [e]) + Saved(b, name, written)
    ensures Saved([], name, written) == [Entry(Some(name), written)]
  {
    hide Others;
    OthersConcat(a + [e], b, name);
    OthersConcat(a, [e], name);
    OthersOfOne(e, name);
    ConcatIsAssociative(Others(a + [e], name), Others(b, name), [Entry(Some(name), written)]);
  }

  lemma OthersOfOne(e: Entry, name: string)
    ensures Others([e], name) == if e.name == Some(name) then [] else [e]
    ensures Others([], name) == []
  {
    assert [e][1..] == [];
  }

  lemma LastEntryIsFound(entries: seq<Entry>, e: Entry)
    requires e.name.Some?
    ensures FindEntry(entries + [e], e.name.value) == Some(e)
  {
  }

  lemma OtherLookupPassesLast(entries: seq<Entry>, e: Entry, other: string)
    requires e.name != Some(other)
    ensures FindEntry(entries + [e], other) == FindEntry(entries, other)
  {
    assert (entries + [e])[..|entries|] == entries;
  }

  lemma OthersOfOwn(e: Entry)
    requires e.name.Some?
    ensures Others([e], e.name.value) == []
  {
    assert [e][1..] == [];
  }

  /* ---------- The configuration file ---------- */

  datatype PluginsField = NoField | Entries(entries: seq<Entry>) | NotAnArray

  /** What stands in the file; `others` are the fields that do not matter here. */
  datatype Stored =
    | Absent
    | Unreadable
    | InvalidJson
    | NotAnObject
    | Object(others: map<string, string>, plugins: PluginsField)

  datatype SaveError = ReadFailed | BadJson | MustBeObject | MustBeArray | WriteFailed

  /** Why the file cannot take a plugin, if it cannot. */
  function Refusal(stored: Stored): Option<SaveError> {
    match stored
    case Unreadable => Some(ReadFailed)
    case InvalidJson => Some(BadJson)
    case NotAnObject => Some(MustBeObject)
    case Object(_, NotAnArray) => Some(MustBeArray)
    case _ => None
  }

  /** The entries a file has; one that is not there, or has no list, has none. */
  function EntriesIn(stored: Stored): seq<Entry> {
    if stored.Object? && stored.plugins.Entries? then stored.plugins.entries else []
  }

  class ConfigFile {
    var stored: Stored
    /** Where writing fails, what it leaves of the file: anything. */
    const broken: Option<Stored>

    constructor (stored: Stored, broken: Option<Stored>)
      ensures this.stored == stored && this.broken == broken
    {
      this.stored, this.broken := stored, broken;
    }

    /** Save a plugin. A file that is not an object with a list, or no list, of
        plugins is refused and stays as it is; a failed write may leave anything. */
    method UpsertPluginConfig(name: string, written: string) returns (error: Option<SaveError>)
      modifies this
      ensures Refusal(old(stored)).Some? ==> error == Refusal(old(stored)) && stored == old(stored)
      ensures Refusal(old(stored)).None? && broken.Some? ==> error == Some(WriteFailed) && stored == broken.value
      ensures Refusal(old(stored)).None? && broken.None? ==>
        && error == None
        && stored.Object? && stored.plugins == Entries(Saved(EntriesIn(old(stored)), name, written))
        && stored.others == (if old(stored).Object? then old(stored).others else map[])
    {
      var value := Object(map[], NoField);
      match stored {
        case Absent =>
        case Unreadable => return Some(ReadFailed);
        case InvalidJson => return Some(BadJson);
        case NotAnObject => return Some(MustBeObject);
        case Object(_, _) => value := stored;
      }
      var entries: seq<Entry> := [];
      match value.plugins {
        case NoField =>
        case Entries(present) => entries := present;
        case NotAnArray => return Some(MustBeArray);
      }
      var plugins := ReplaceEntry(entries, name, written);
      if broken.Some? {
        stored := broken.value;
        return Some(WriteFailed);
      }
      stored := value.(plugins := Entries(plugins));
      error := None;
    }
  }
}
