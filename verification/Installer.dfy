/** The two files, changed step by step. */
module Installer {
  import opened Options
  import opened InstallerModel

  class Installation {
    const fmt: Format
    var files: Files

    constructor (fmt: Format, files: Files)
      ensures this.fmt == fmt && this.files == files
    {
      this.fmt, this.files := fmt, files;
    }

    /** Each write is atomic: it happens or it does not. */
    method ExecuteTransaction(edits: seq<Edit>, m: Manifest, w: World) returns (r: Result<(), Error>)
      modifies this
      ensures files == Transact(fmt, old(files), edits, m, w).0
      ensures r == Transact(fmt, old(files), edits, m, w).1
    {
      var raw := "{}";
      if files.config.Some? {
        raw := fmt.decode(files.config.value);
        if fmt.parse(raw).None? {
          return Err(Malformed);
        }
      }
      var manifestRaw := if files.manifest.Some? then Some(fmt.decode(files.manifest.value)) else None;
      if files.config.Some? && !w.backup {
        return Err(BackupThrows);
      }
      if manifestRaw.Some? && fmt.readManifest(manifestRaw.value).None? {
        return Err(CorruptManifest);
      }
      if !w.provisional {
        return Err(ProvisionalFailed);
      }
      var configRaw := if files.config.Some? then Some(raw) else None;
      files := files.(manifest := Some(fmt.encode(fmt.printManifest(m.(provisional := true)))));
      if !w.write {
        RestorePriorState(configRaw, manifestRaw, w);
        return Err(ConfigWriteFailed);
      }
      files := files.(config := Some(fmt.encode(fmt.edit(raw, edits))));
      if !w.finalize {
        RestorePriorState(configRaw, manifestRaw, w);
        return Err(FinalizeFailed);
      }
      files := files.(manifest := Some(fmt.encode(fmt.printManifest(m.(provisional := false)))));
      return Ok(());
    }

    method RestorePriorState(configRaw: Option<string>, manifestRaw: Option<string>, w: World)
      modifies this
      ensures files == Files(
        if w.restoreConfig then Encoded(configRaw) else old(files.config),
        if w.restoreManifest then Encoded(manifestRaw) else old(files.manifest))
    {
      if w.restoreConfig {
        files := files.(config := Encoded(configRaw));
      }
      if w.restoreManifest {
        files := files.(manifest := Encoded(manifestRaw));
      }
    }

    function Encoded(text: Option<string>): Option<Bytes> {
      if text.Some? then Some(fmt.encode(text.value)) else None
    }

    method RegisterPlugin(ref: string, w: World) returns (r: Result<bool, Error>)
      modifies this
      ensures (files, r) == Install(fmt, old(files), ref, w)
    {
      var parsed := if files.config.Some? then fmt.parse(fmt.decode(files.config.value)) else Some(Config(None, None));
      if parsed.None? {
        return Err(Malformed);
      }
      var data := parsed.value;
      var pluginAdded := !PluginPresent(ref, data);
      var defaultAgentAdded := IsNullish(data.defaultAgent);
      var edits: seq<Edit> := [];
      if pluginAdded {
        var items := Spread(data.plugin);
        if items.None? {
          return Err(NotIterable);
        }
        edits := edits + [SetPlugin(List(items.value + [Str(ref)]))];
      }
      if defaultAgentAdded {
        edits := edits + [SetDefaultAgent(Some(HEIDI))];
      }
      assert InstallEdits(ref, data).value == edits;
      if edits == [] {
        return Ok(false);
      }
      var done := ExecuteTransaction(edits, InstallManifest(ref, data), w);
      return if done.Ok? then Ok(true) else Err(done.error);
    }

    /** An uninstall that is not forced. */
    method UninstallManaged(w: World) returns (r: Result<bool, Error>)
      modifies this
      ensures (files, r) == Uninstall(fmt, old(files), w)
    {
      if files.config.None? {
        return Ok(false);
      }
      var parsed := fmt.parse(fmt.decode(files.config.value));
      if parsed.None? {
        return Err(Malformed);
      }
      if files.manifest.None? {
        return Err(NotManaged);
      }
      var readManifest := fmt.readManifest(fmt.decode(files.manifest.value));
      if readManifest.None? {
        return Err(CorruptManifest);
      }
      var m := readManifest.value;
      if m.pluginRef == "" {
        return Err(NotManaged);
      }
      hide Transact, Without;
      var edits: seq<Edit> := [];
      if m.pluginAdded && parsed.value.plugin.Some? && parsed.value.plugin.value.List? {
        var items := parsed.value.plugin.value.items;
        var filtered := Without(m.pluginRef, items);
        if |filtered| < |items| {
          edits := edits + [SetPlugin(List(filtered))];
        }
      }
      if m.defaultAgentAdded {
        edits := edits + [SetDefaultAgent(if m.previousDefaultAgent.Null? then None else Some(m.previousDefaultAgent))];
      }
      assert edits == UninstallEdits(m, parsed.value);
      if edits == [] {
        return Ok(false);
      }
      var done := ExecuteTransaction(edits, m.(pluginAdded := false), w);
      return if done.Ok? then Ok(true) else Err(done.error);
    }
  }
}
