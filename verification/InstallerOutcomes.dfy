/** What an install and an uninstall answer and leave, and which entries of a plugin list they take for the plugin. */
module InstallerOutcomes {
  import opened Options
  import opened InstallerModel
  import opened InstallerTheorems

  // ----- JSON values -----

  /** `String` of a list joins the texts of its elements with commas, and takes null elements for empty ones. */
  lemma TextOfList(a: seq<Json>, b: seq<Json>)
    ensures a != [] && b != [] ==> Text(List(a + b)) == Text(List(a)) + "," + Text(List(b))
    ensures Text(List([])) == "" && Text(List([Null])) == ""
    ensures forall x: Json :: !x.Null? ==> Text(List([x])) == Text(x)
  {
    if a != [] && b != [] {
      JoinedConcat(a, b);
    }
  }

  lemma {:induction false} JoinedConcat(a: seq<Json>, b: seq<Json>)
    requires a != [] && b != []
    ensures Joined(a + b) == Joined(a) + "," + Joined(b)
  {
    var first := if a[0].Null? then "" else Text(a[0]);
    assert (a + b)[0] == a[0];
    if |a| == 1 {
      assert (a + b)[1..] == b;
    } else {
      assert (a + b)[1..] == a[1..] + b;
      JoinedConcat(a[1..], b);
      var x, y := Joined(a[1..]), Joined(b);
      hide Text;
      assert Joined(a + b) == first + "," + (x + "," + y);
      assert first + "," + (x + "," + y) == first + "," + x + "," + y;
    }
  }

  /** What a plugin setting can be extended from: nothing, a value that counts as false, a list, or a text, which is
      taken apart. */
  lemma SpreadIff(value: Option<Json>)
    ensures Spread(value) ==
              match value
              case None => Some([])
              case Some(Null) => Some([])
              case Some(Str(t)) => Some(seq(|t|, i requires 0 <= i < |t| => Str([t[i]])))
              case Some(List(items)) => Some(items)
              case Some(Other(_, truthy)) => if truthy then None else Some([])
  {
    if value.Some? && value.value.Str? {
      assert value.value.text == "" ==> Characters(value.value.text) == [];
    }
  }

  /** A local reference is itself alone; a package is itself, with a version or without. */
  lemma IsRefIff(ref: string, t: string)
    ensures "file://" <= ref ==> (IsRef(ref, Str(t)) <==> t == ref)
    ensures !("file://" <= ref) ==> (IsRef(ref, Str(t)) <==> t == ref || ref + "@" <= t)
    ensures forall p: Json :: !p.Str? ==> (IsRef(ref, p) <==> !("file://" <= ref) && ref + "@" <= Text(p))
  {
  }

  /** What is taken out of a list is every entry that is the plugin; the others stay, in order. */
  lemma {:induction false} WithoutIff(ref: string, items: seq<Json>)
    ensures forall p :: p in Without(ref, items) <==> p in items && !IsRef(ref, p)
    ensures |Without(ref, items)| == |items| <==> forall p <- items :: !IsRef(ref, p)
    ensures |Without(ref, items)| <= |items|
    ensures forall a, b :: items == a + b ==> Without(ref, items) == Without(ref, a) + Without(ref, b)
  {
    hide IsRef;
    if items != [] {
      WithoutIff(ref, items[1..]);
      assert items == [items[0]] + items[1..];
    }
    forall a, b | items == a + b
      ensures Without(ref, items) == Without(ref, a) + Without(ref, b)
    {
      WithoutConcat(ref, a, b);
    }
  }

  // ----- The transaction -----

  /** The error of a transaction that does not succeed: that of the first step that cannot be taken. */
  lemma TransactErrorIff(fmt: Format, f: Files, edits: seq<Edit>, m: Manifest, w: World)
    ensures Transact(fmt, f, edits, m, w).1 ==
              if f.config.Some? && fmt.parse(fmt.decode(f.config.value)) == None then Err(Malformed)
              else if f.config.Some? && !w.backup then Err(BackupThrows)
              else if f.manifest.Some? && fmt.readManifest(fmt.decode(f.manifest.value)) == None
              then Err(CorruptManifest)
              else if !w.provisional then Err(ProvisionalFailed)
              else if !w.write then Err(ConfigWriteFailed)
              else if !w.finalize then Err(FinalizeFailed)
              else Ok(())
  {
  }

  // ----- The commands -----

  /** The plugin is in the list of plugins. */
  ghost predicate IsListed(ref: string, plugin: Option<Json>) {
    plugin.Some? && plugin.value.List? && exists p <- plugin.value.items :: IsRef(ref, p)
  }

  ghost predicate HasAgent(agent: Option<Json>) {
    agent != None && agent != Some(Null)
  }

  /** An install fails for a configuration that does not parse or whose plugin setting cannot be extended, answers that
      there is nothing to do if the plugin is listed and an agent is set, and otherwise is a transaction. */
  lemma InstallAnswerIff(fmt: Format, f: Files, ref: string, w: World)
    ensures var (g, r) := Install(fmt, f, ref, w);
            if ConfigOf(fmt, f) == None then g == f && r == Err(Malformed)
            else
              var c := ConfigOf(fmt, f).value;
              var lacks := !IsListed(ref, c.plugin);
              if lacks && c.plugin.Some? && c.plugin.value.Other? && c.plugin.value.truthy
              then g == f && r == Err(NotIterable)
              else if !lacks && HasAgent(c.defaultAgent) then g == f && r == Ok(false)
              else
                && (r == Ok(true) <==> Begins(fmt, f, w) && w.write && w.finalize)
                && (r != Ok(true) ==> r.Err? && r.error !in {Malformed, NotIterable})
  {
    hide IsRef, Begins;
    if ConfigOf(fmt, f).Some? {
      var c := ConfigOf(fmt, f).value;
      assert IsListed(ref, c.plugin) <==> PluginPresent(ref, c);
      if InstallEdits(ref, c).Ok? {
        InstallEditsGive(ref, c);
        AllOrNothingIff(fmt, f, InstallEdits(ref, c).value, InstallManifest(ref, c), w);
        TransactErrorIff(fmt, f, InstallEdits(ref, c).value, InstallManifest(ref, c), w);
        hide Transact;
      }
    }
  }

  /** An install that changes something leaves the plugin listed, behind what was there, and an agent set; the manifest
      says what of that it added, and what the agent was. */
  lemma InstallLeaves(fmt: Format, f: Files, ref: string, w: World)
    requires Faithful(fmt) && Install(fmt, f, ref, w).1 == Ok(true)
    ensures var g := Install(fmt, f, ref, w).0;
            && ConfigOf(fmt, f).Some? && ConfigOf(fmt, g).Some?
            && var c, d := ConfigOf(fmt, f).value, ConfigOf(fmt, g).value;
               var before := if c.defaultAgent.Some? then c.defaultAgent.value else Null;
               && IsListed(ref, d.plugin) && HasAgent(d.defaultAgent)
               && (if IsListed(ref, c.plugin) then d.plugin == c.plugin
                   else Spread(c.plugin).Some? && d.plugin == Some(List(Spread(c.plugin).value + [Str(ref)])))
               && d.defaultAgent == (if HasAgent(c.defaultAgent) then c.defaultAgent else Some(Str("heidi")))
               && ManifestOf(fmt, g) == Some(Manifest(
                    ref, !IsListed(ref, c.plugin), IsListed(ref, c.plugin), !HasAgent(c.defaultAgent), before, false))
  {
    InstallReads(fmt, f, ref, w);
    var c := ConfigOf(fmt, f).value;
    if !IsListed(ref, c.plugin) {
      var items := Spread(c.plugin).value;
      assert (items + [Str(ref)])[|items|] == Str(ref) && IsRef(ref, Str(ref));
    }
    hide Install, Faithful, IsRef, Spread;
  }

  /** An uninstall answers that there is nothing to do without a configuration, fails for one that does not parse, for
      a manifest that is missing, unreadable or names no plugin, and otherwise takes out what the manifest says was
      added: the plugin from a list that holds it, and the agent, for which the one before comes back. */
  lemma UninstallAnswerIff(fmt: Format, f: Files, w: World)
    ensures var (g, r) := Uninstall(fmt, f, w);
            if f.config == None then g == f && r == Ok(false)
            else if ConfigOf(fmt, f) == None then g == f && r == Err(Malformed)
            else if f.manifest == None then g == f && r == Err(NotManaged)
            else if ManifestOf(fmt, f) == None then g == f && r == Err(CorruptManifest)
            else if ManifestOf(fmt, f).value.pluginRef == "" then g == f && r == Err(NotManaged)
            else
              var m, c := ManifestOf(fmt, f).value, ConfigOf(fmt, f).value;
              if !m.defaultAgentAdded && !(m.pluginAdded && IsListed(m.pluginRef, c.plugin))
              then g == f && r == Ok(false)
              else r == Ok(true) <==> w.backup && w.provisional && w.write && w.finalize
  {
    hide IsRef, Without;
    if f.config.Some? && ConfigOf(fmt, f).Some? && f.manifest.Some? && ManifestOf(fmt, f).Some? {
      var m, c := ManifestOf(fmt, f).value, ConfigOf(fmt, f).value;
      if c.plugin.Some? && c.plugin.value.List? {
        WithoutIff(m.pluginRef, c.plugin.value.items);
      }
      AllOrNothingIff(fmt, f, UninstallEdits(m, c), m.(pluginAdded := false), w);
      TransactErrorIff(fmt, f, UninstallEdits(m, c), m.(pluginAdded := false), w);
      hide Transact;
    }
  }

  /** What an uninstall that changes something leaves: the setting without the plugin, if the manifest says that the
      install added it, and the agent from before the install, if it says that the install set one. */
  lemma UninstallLeaves(fmt: Format, f: Files, w: World)
    requires Faithful(fmt) && Uninstall(fmt, f, w).1 == Ok(true)
    ensures var g := Uninstall(fmt, f, w).0;
            && ConfigOf(fmt, f).Some? && ConfigOf(fmt, g).Some? && ManifestOf(fmt, f).Some?
            && var c, d, m := ConfigOf(fmt, f).value, ConfigOf(fmt, g).value, ManifestOf(fmt, f).value;
               && d.plugin == (if m.pluginAdded && IsListed(m.pluginRef, c.plugin)
                               then Some(List(Without(m.pluginRef, c.plugin.value.items))) else c.plugin)
               && d.defaultAgent == (if !m.defaultAgentAdded then c.defaultAgent
                                     else if m.previousDefaultAgent == Null then None
                                     else Some(m.previousDefaultAgent))
               && ManifestOf(fmt, g) == Some(m.(pluginAdded := false, provisional := false))
  {
    UninstallReads(fmt, f, w);
    var c, m := ConfigOf(fmt, f).value, ManifestOf(fmt, f).value;
    if c.plugin.Some? && c.plugin.value.List? {
      WithoutIff(m.pluginRef, c.plugin.value.items);
    }
    UninstallEditsGive(m, c);
    hide Faithful, IsRef, Without, Transact;
  }
}
