/** What an uninstall brings back, what it cannot, and what a failed command leaves. */
module InstallerTheorems {
  import opened Options
  import opened InstallerModel

  // ----- A failed command -----

  /** Writing what was read of a file gives its bytes again, as it does for valid UTF-8; a missing file is removed
      again. */
  predicate ReadsBack(fmt: Format, before: Option<Bytes>) {
    before.Some? ==> fmt.encode(fmt.decode(before.value)) == before.value
  }

  predicate BothReadBack(fmt: Format, f: Files) {
    ReadsBack(fmt, f.config) && ReadsBack(fmt, f.manifest)
  }

  /** A transaction comes to write the provisional manifest: both files can be read, and a backup of the
      configuration can be made. */
  predicate Begins(fmt: Format, f: Files, w: World) {
    Readable(fmt, f) && (f.config.Some? ==> w.backup) && w.provisional
  }

  predicate Readable(fmt: Format, f: Files) {
    ConfigOf(fmt, f).Some? && (f.manifest.Some? ==> ManifestOf(fmt, f).Some?)
  }

  /** Both restoring writes go through. */
  predicate Restores(w: World) {
    w.restoreConfig && w.restoreManifest
  }

  /** A transaction succeeds if and only if none of its steps fails, and then both files are what it set out to
      write. One that fails leaves the files as they were if it had not begun to write; otherwise it is each file by
      itself that is as it was, if and only if it reads back and the restoring write goes through, or where that
      fails what the transaction had written there was what it held before. */
  lemma AllOrNothingIff(fmt: Format, f: Files, edits: seq<Edit>, m: Manifest, w: World)
    ensures var (g, r) := Transact(fmt, f, edits, m, w);
            && (r.Ok? <==> Begins(fmt, f, w) && w.write && w.finalize)
            && (r.Ok? ==> g == Files(Some(Edited(fmt, f, edits)), Some(Printed(fmt, m.(provisional := false)))))
            && (!Begins(fmt, f, w) ==> g == f)
            && (Begins(fmt, f, w) && !(w.write && w.finalize) ==>
                  && (g.config == f.config <==>
                        if w.restoreConfig then ReadsBack(fmt, f.config)
                        else !w.write || f.config == Some(Edited(fmt, f, edits)))
                  && (g.manifest == f.manifest <==>
                        if w.restoreManifest then ReadsBack(fmt, f.manifest)
                        else f.manifest == Some(Printed(fmt, m.(provisional := true)))))
  {
  }

  /** A step that fails after the transaction has begun, while both files can be put back. */
  const WRITE_FAILS := World(true, true, false, true, true, true)

  /** However a transaction fails, it leaves both files byte for byte as they were as long as the restoring writes go
      through, if and only if one of them cannot be read, so that it never begins, or both read back: a configuration
      or a manifest that is not valid UTF-8 is changed. */
  lemma FailureRestoresIff(fmt: Format, f: Files, edits: seq<Edit>, m: Manifest)
    ensures (forall w :: Restores(w) && Transact(fmt, f, edits, m, w).1.Err? ==> Transact(fmt, f, edits, m, w).0 == f)
       <==> !Readable(fmt, f) || BothReadBack(fmt, f)
  {
    hide Transact, ConfigOf, ManifestOf, ReadsBack;
    AllOrNothingIff(fmt, f, edits, m, WRITE_FAILS);
    forall w | Restores(w)
      ensures Transact(fmt, f, edits, m, w).1.Err? && (!Readable(fmt, f) || BothReadBack(fmt, f)) ==>
                Transact(fmt, f, edits, m, w).0 == f
    {
      AllOrNothingIff(fmt, f, edits, m, w);
    }
  }

  /** The same of an install: it never begins either where the plugin setting cannot be extended or there is nothing
      to edit. */
  lemma FailedInstallRestoresIff(fmt: Format, f: Files, ref: string)
    ensures (forall w :: Restores(w) && Install(fmt, f, ref, w).1.Err? ==> Install(fmt, f, ref, w).0 == f)
       <==> || !Readable(fmt, f) || BothReadBack(fmt, f)
            || InstallEdits(ref, ConfigOf(fmt, f).value).Err?
            || InstallEdits(ref, ConfigOf(fmt, f).value).value == []
  {
    hide Transact, ConfigOf, ManifestOf, ReadsBack, InstallEdits, InstallManifest;
    if ConfigOf(fmt, f).Some? {
      var c := ConfigOf(fmt, f).value;
      if InstallEdits(ref, c).Ok? {
        var edits := InstallEdits(ref, c).value;
        FailureRestoresIff(fmt, f, edits, InstallManifest(ref, c));
      }
    }
  }

  /** And of an uninstall, which begins only under a manifest that names the plugin, and with something to edit. */
  lemma FailedUninstallRestoresIff(fmt: Format, f: Files)
    ensures (forall w :: Restores(w) && Uninstall(fmt, f, w).1.Err? ==> Uninstall(fmt, f, w).0 == f)
       <==> || f.config.None? || f.manifest.None? || !Readable(fmt, f) || BothReadBack(fmt, f)
            || ManifestOf(fmt, f).value.pluginRef == ""
            || UninstallEdits(ManifestOf(fmt, f).value, ConfigOf(fmt, f).value) == []
  {
    hide Transact, ReadsBack, UninstallEdits;
    if f.config.Some? && f.manifest.Some? && Readable(fmt, f) {
      var m, c := ManifestOf(fmt, f).value, ConfigOf(fmt, f).value;
      FailureRestoresIff(fmt, f, UninstallEdits(m, c), m.(pluginAdded := false));
    }
  }

  /** A configuration with a byte that is not UTF-8 loses it to an install that fails, although every restoring
      write goes through. */
  lemma InvalidByteIsLost(fmt: Format, config: Bytes, ref: string)
    requires fmt.parse(fmt.decode(config)) == Some(Config(None, None)) && fmt.encode(fmt.decode(config)) != config
    ensures var (g, r) := Install(fmt, Files(Some(config), None), ref, WRITE_FAILS);
            && r == Err(ConfigWriteFailed)
            && g == Files(Some(fmt.encode(fmt.decode(config))), None) && g.config != Some(config)
  {
  }

  // ----- Filtering -----

  lemma {:induction false} WithoutNone(ref: string, items: seq<Json>)
    requires forall p <- items :: !IsRef(ref, p)
    ensures Without(ref, items) == items
  {
    if items != [] {
      WithoutNone(ref, items[1..]);
    }
  }

  lemma {:induction false} WithoutConcat(ref: string, a: seq<Json>, b: seq<Json>)
    ensures Without(ref, a + b) == Without(ref, a) + Without(ref, b)
  {
    if a == [] {
      assert a + b == b;
    } else {
      assert (a + b)[1..] == a[1..] + b;
      WithoutConcat(ref, a[1..], b);
    }
  }

  lemma CharactersAreNoRef(ref: string, t: string)
    requires |ref| > 1
    ensures forall p <- Characters(t) :: !IsRef(ref, p)
  {
    forall p | p in Characters(t)
      ensures !IsRef(ref, p)
    {
      assert |Text(p)| == 1;
    }
  }

  /** What an added plugin is taken out of again is what it was added to. */
  lemma AddThenRemove(ref: string, c: Config)
    requires |ref| > 1 && !PluginPresent(ref, c) && Spread(c.plugin).Some?
    ensures var items := Spread(c.plugin).value;
            Without(ref, items + [Str(ref)]) == items && |items| < |items + [Str(ref)]|
  {
    var items := Spread(c.plugin).value;
    if c.plugin.Some? && c.plugin.value.Str? {
      CharactersAreNoRef(ref, c.plugin.value.text);
    }
    assert forall p <- items :: !IsRef(ref, p);
    WithoutNone(ref, items);
    WithoutConcat(ref, items, [Str(ref)]);
    assert Without(ref, [Str(ref)]) == [];
  }

  // ----- Install, then uninstall -----

  lemma AppliedTwo(c: Config, a: seq<Edit>, b: seq<Edit>)
    requires |a| <= 1 && |b| <= 1
    requires forall e <- a :: e.SetPlugin?
    requires forall e <- b :: e.SetDefaultAgent?
    ensures Applied(c, a + b) == Config(
      if a == [] then c.plugin else Some(a[0].value),
      if b == [] then c.defaultAgent else b[0].agent)
  {
    var d := if a == [] then c else c.(plugin := Some(a[0].value));
    if a == [] {
      assert a + b == b;
    } else {
      assert (a + b)[1..] == b;
      assert Applied(c, a + b) == Applied(d, b);
    }
    if b != [] {
      assert b[1..] == [] && b[0] in b;
      assert Applied(d, b) == Applied(d.(defaultAgent := b[0].agent), []);
    }
  }

  /** What an install makes of a configuration. */
  function Installed(ref: string, c: Config): Config
    requires InstallEdits(ref, c).Ok?
  {
    Config(
      if PluginPresent(ref, c) then c.plugin else Some(List(Spread(c.plugin).value + [Str(ref)])),
      if IsNullish(c.defaultAgent) then Some(HEIDI) else c.defaultAgent)
  }

  lemma InstallEditsGive(ref: string, c: Config)
    requires InstallEdits(ref, c).Ok?
    ensures Applied(c, InstallEdits(ref, c).value) == Installed(ref, c)
    ensures InstallEdits(ref, c).value == [] <==> PluginPresent(ref, c) && !IsNullish(c.defaultAgent)
  {
    var a := if PluginPresent(ref, c) then [] else [SetPlugin(List(Spread(c.plugin).value + [Str(ref)]))];
    var b := if IsNullish(c.defaultAgent) then [SetDefaultAgent(Some(HEIDI))] else [];
    assert InstallEdits(ref, c).value == a + b;
    AppliedTwo(c, a, b);
  }

  /** What an uninstall makes of a configuration. */
  function Uninstalled(m: Manifest, c: Config): Config {
    Config(
      if m.pluginAdded && c.plugin.Some? && c.plugin.value.List?
         && |Without(m.pluginRef, c.plugin.value.items)| < |c.plugin.value.items|
      then Some(List(Without(m.pluginRef, c.plugin.value.items))) else c.plugin,
      if !m.defaultAgentAdded then c.defaultAgent
      else if m.previousDefaultAgent.Null? then None else Some(m.previousDefaultAgent))
  }

  lemma UninstallEditsGive(m: Manifest, c: Config)
    ensures Applied(c, UninstallEdits(m, c)) == Uninstalled(m, c)
    ensures UninstallEdits(m, c) == [] ==> Uninstalled(m, c) == c
    ensures m.defaultAgentAdded ==> UninstallEdits(m, c) != []
  {
    var edits := UninstallEdits(m, c);
    var k := if edits != [] && edits[0].SetPlugin? then 1 else 0;
    assert edits == edits[..k] + edits[k..];
    AppliedTwo(c, edits[..k], edits[k..]);
  }

  /** The library calls do what they are for: an edited text parses to the edited configuration, a printed manifest
      reads as itself, and encoded text decodes to itself. */
  ghost predicate Faithful(fmt: Format) {
    && fmt.parse("{}") == Some(Config(None, None))
    && (forall text, edits :: fmt.parse(text).Some? ==>
          fmt.parse(fmt.edit(text, edits)) == Some(Applied(fmt.parse(text).value, edits)))
    && (forall m :: fmt.readManifest(fmt.printManifest(m)) == Some(m))
    && (forall text :: fmt.decode(fmt.encode(text)) == text)
  }

  /** What a successful transaction leaves, read and parsed. */
  lemma TransactionReads(fmt: Format, f: Files, edits: seq<Edit>, m: Manifest, w: World)
    requires Faithful(fmt) && Transact(fmt, f, edits, m, w).1.Ok?
    ensures var g := Transact(fmt, f, edits, m, w).0;
            && ConfigOf(fmt, f).Some? && g.config.Some?
            && ConfigOf(fmt, g) == Some(Applied(ConfigOf(fmt, f).value, edits))
            && ManifestOf(fmt, g) == Some(m.(provisional := false))
  {
    var text := if f.config.None? then "{}" else fmt.decode(f.config.value);
    assert fmt.parse(text) == ConfigOf(fmt, f);
    assert fmt.parse(fmt.edit(text, edits)) == Some(Applied(fmt.parse(text).value, edits));
  }

  /** What a successful install leaves. */
  lemma InstallReads(fmt: Format, f: Files, ref: string, w: World)
    requires Faithful(fmt) && Install(fmt, f, ref, w).1 == Ok(true)
    ensures var g := Install(fmt, f, ref, w).0;
            && ConfigOf(fmt, f).Some? && InstallEdits(ref, ConfigOf(fmt, f).value).Ok?
            && g.config.Some? && g.manifest.Some?
            && ConfigOf(fmt, g) == Some(Installed(ref, ConfigOf(fmt, f).value))
            && ManifestOf(fmt, g) == Some(InstallManifest(ref, ConfigOf(fmt, f).value))
  {
    var c := ConfigOf(fmt, f).value;
    InstallEditsGive(ref, c);
    TransactionReads(fmt, f, InstallEdits(ref, c).value, InstallManifest(ref, c), w);
    hide Transact, Faithful;
  }

  /** What a successful managed uninstall leaves. */
  lemma UninstallReads(fmt: Format, f: Files, w: World)
    requires Faithful(fmt) && f.config.Some? && Uninstall(fmt, f, w).1.Ok?
    ensures var g := Uninstall(fmt, f, w).0;
            && ConfigOf(fmt, f).Some? && ManifestOf(fmt, f).Some?
            && var m, c := ManifestOf(fmt, f).value, ConfigOf(fmt, f).value;
               && ConfigOf(fmt, g) == Some(Uninstalled(m, c))
               && (UninstallEdits(m, c) != [] ==>
                     ManifestOf(fmt, g) == Some(m.(pluginAdded := false, provisional := false)))
  {
    var m, c := ManifestOf(fmt, f).value, ConfigOf(fmt, f).value;
    UninstallEditsGive(m, c);
    if UninstallEdits(m, c) != [] {
      TransactionReads(fmt, f, UninstallEdits(m, c), m.(pluginAdded := false), w);
    }
    hide Transact, Faithful;
  }

  lemma InstalledThenUninstalled(ref: string, c: Config)
    requires |ref| > 1 && InstallEdits(ref, c).Ok? && InstallEdits(ref, c).value != []
    ensures var m := InstallManifest(ref, c);
            && Uninstalled(m, Installed(ref, c)) == Config(
                 if PluginPresent(ref, c) then c.plugin else Some(List(Spread(c.plugin).value)),
                 if IsNullish(c.defaultAgent) then None else c.defaultAgent)
            && UninstallEdits(m, Installed(ref, c)) != []
  {
    InstallEditsGive(ref, c);
    if !PluginPresent(ref, c) {
      AddThenRemove(ref, c);
    }
  }

  /** After an install that changed something and a managed uninstall, other entries keep their order; the settings
      are as before except that a plugin setting that was extended is now a list, and a null agent is absent. */
  lemma InstallThenUninstall(fmt: Format, f: Files, ref: string, w: World, w': World)
    requires Faithful(fmt) && |ref| > 1 && Install(fmt, f, ref, w).1 == Ok(true)
    requires Uninstall(fmt, Install(fmt, f, ref, w).0, w').1.Ok?
    ensures var after := Uninstall(fmt, Install(fmt, f, ref, w).0, w').0;
            && ConfigOf(fmt, f).Some?
            && var c := ConfigOf(fmt, f).value;
               && InstallEdits(ref, c).Ok?
               && ConfigOf(fmt, after) == Some(Config(
                    if PluginPresent(ref, c) then c.plugin else Some(List(Spread(c.plugin).value)),
                    if IsNullish(c.defaultAgent) then None else c.defaultAgent))
               && ManifestOf(fmt, after) == Some(InstallManifest(ref, c).(pluginAdded := false))
  {
    InstallReads(fmt, f, ref, w);
    UninstallReads(fmt, Install(fmt, f, ref, w).0, w');
    hide Install, Uninstall, Faithful, ConfigOf, ManifestOf;
    InstalledThenUninstalled(ref, ConfigOf(fmt, f).value);
  }

  /** So the settings are exactly the old ones if and only if the plugin setting was a list, or had the plugin,
      and the agent was not an explicit null. */
  lemma RoundTripIff(fmt: Format, f: Files, ref: string, w: World, w': World)
    requires Faithful(fmt) && |ref| > 1 && Install(fmt, f, ref, w).1 == Ok(true)
    requires Uninstall(fmt, Install(fmt, f, ref, w).0, w').1.Ok?
    ensures ConfigOf(fmt, f).Some?
    ensures var c := ConfigOf(fmt, f).value;
            ConfigOf(fmt, Uninstall(fmt, Install(fmt, f, ref, w).0, w').0) == Some(c)
            <==> c.plugin.Some? && c.plugin.value.List? && c.defaultAgent != Some(Null)
  {
    InstallThenUninstall(fmt, f, ref, w, w');
    hide Install, Uninstall, Faithful, ConfigOf;
  }

  /** Installing again edits nothing, whatever the file system would do. */
  lemma SecondInstallIsIdle(fmt: Format, f: Files, ref: string, w: World, w': World)
    requires Faithful(fmt) && Install(fmt, f, ref, w).1.Ok?
    ensures Install(fmt, Install(fmt, f, ref, w).0, ref, w') == (Install(fmt, f, ref, w).0, Ok(false))
  {
    if Install(fmt, f, ref, w).1 == Ok(true) {
      InstallReads(fmt, f, ref, w);
      var t := Installed(ref, ConfigOf(fmt, f).value);
      InstalledIsIdle(ref, ConfigOf(fmt, f).value);
      hide Faithful, Transact;
      assert InstallEdits(ref, t) == Ok([]);
    }
  }

  lemma InstalledIsIdle(ref: string, c: Config)
    requires InstallEdits(ref, c).Ok?
    ensures InstallEdits(ref, Installed(ref, c)) == Ok([])
  {
    var t := Installed(ref, c);
    if !PluginPresent(ref, c) {
      assert t.plugin.value.items[|Spread(c.plugin).value|] == Str(ref);
      assert Str(ref) in t.plugin.value.items && IsRef(ref, Str(ref));
    }
    assert PluginPresent(ref, t);
    InstallEditsGive(ref, t);
  }

  // ----- What does not come back -----

  /** A managed uninstall keeps the agent that is set when it runs if and only if the manifest does not say that the
      install set one. */
  lemma AgentKeptIff(fmt: Format, f: Files, w: World)
    requires Faithful(fmt) && f.config.Some? && Uninstall(fmt, f, w).1.Ok?
    requires ManifestOf(fmt, f).Some? && ManifestOf(fmt, f).value.previousDefaultAgent.Null?
    requires ConfigOf(fmt, f).Some? && ConfigOf(fmt, f).value.defaultAgent.Some?
    ensures var g := Uninstall(fmt, f, w).0;
            && ConfigOf(fmt, g).Some?
            && (ConfigOf(fmt, g).value.defaultAgent == ConfigOf(fmt, f).value.defaultAgent
                <==> !ManifestOf(fmt, f).value.defaultAgentAdded)
  {
    UninstallReads(fmt, f, w);
    hide Uninstall, Faithful, ConfigOf, ManifestOf;
  }

  predicate AllSucceeds(w: World) {
    w.backup && w.provisional && w.write && w.finalize
  }

  /** The manifest goes on saying so after the uninstall: an agent that the user sets later is removed by the next
      one. */
  lemma SecondUninstallTakesUsersAgent(
      fmt: Format, f: Files, ref: string, w: World, w': World, edited: Files, w'': World, agent: Json)
    requires Faithful(fmt) && |ref| > 1 && Install(fmt, f, ref, w).1 == Ok(true)
    requires ConfigOf(fmt, f).Some? && IsNullish(ConfigOf(fmt, f).value.defaultAgent)
    requires Uninstall(fmt, Install(fmt, f, ref, w).0, w').1.Ok?
    requires var after := Uninstall(fmt, Install(fmt, f, ref, w).0, w').0;
             && edited.config.Some? && edited.manifest == after.manifest
             && ConfigOf(fmt, edited).Some? && ConfigOf(fmt, edited).value.defaultAgent == Some(agent)
    requires AllSucceeds(w'')
    ensures var (again, r) := Uninstall(fmt, edited, w'');
            r.Ok? && ConfigOf(fmt, again) == Some(ConfigOf(fmt, edited).value.(defaultAgent := None))
  {
    InstallThenUninstall(fmt, f, ref, w, w');
    hide Install, Faithful, ConfigOf;
    UninstallReads(fmt, edited, w'');
    hide Uninstall;
  }

  /** An uninstall undoes only the last install that changed anything: if the user empties the plugin list in between,
      the agent that the first install set stays. */
  lemma ReinstallForgetsAgent(fmt: Format, f: Files, ref: string, w: World, edited: Files, w': World, w'': World)
    requires Faithful(fmt) && |ref| > 1 && Install(fmt, f, ref, w).1 == Ok(true)
    requires ConfigOf(fmt, f).Some? && IsNullish(ConfigOf(fmt, f).value.defaultAgent)
    requires var installed := Install(fmt, f, ref, w).0;
             && edited.config.Some? && edited.manifest == installed.manifest
             && ConfigOf(fmt, installed).Some?
             && ConfigOf(fmt, edited) == Some(ConfigOf(fmt, installed).value.(plugin := Some(List([]))))
    requires AllSucceeds(w') && AllSucceeds(w'')
    ensures var (again, r) := Install(fmt, edited, ref, w');
            && r == Ok(true)
            && Uninstall(fmt, again, w'').1.Ok?
            && ConfigOf(fmt, Uninstall(fmt, again, w'').0) == Some(Config(Some(List([])), Some(HEIDI)))
  {
    InstallReads(fmt, f, ref, w);
    hide Install, Uninstall, Faithful, ConfigOf, ManifestOf;
    var c := ConfigOf(fmt, edited).value;
    assert c == Config(Some(List([])), Some(HEIDI)) && !PluginPresent(ref, c);
    InstallEditsGive(ref, c);
    InstallReads(fmt, edited, ref, w');
    var again := Install(fmt, edited, ref, w').0;
    InstallThenUninstall(fmt, edited, ref, w', w'');
  }
}
