/** Installing into a configuration, uninstalling from it, and the transaction both go through. */
module InstallerModel {
  import opened Options

  /** A JSON value, as far as installing looks at it. `Other` has a text that `String` gives, and is truthy or not. */
  datatype Json = Null | Str(text: string) | List(items: seq<Json>) | Other(text: string, truthy: bool)

  /** The two settings that installing touches. */
  datatype Config = Config(plugin: Option<Json>, defaultAgent: Option<Json>)

  datatype Manifest = Manifest(
    pluginRef: string, pluginAdded: bool, pluginPreviouslyPresent: bool,
    defaultAgentAdded: bool, previousDefaultAgent: Json, provisional: bool)

  type Bytes = seq<bv8>

  /** The configuration and the manifest on disk. */
  datatype Files = Files(config: Option<Bytes>, manifest: Option<Bytes>)

  /** UTF-8, JSON with comments, and the manifest's JSON. Decoding replaces what is not UTF-8. */
  datatype Format = Format(
    decode: Bytes -> string,
    encode: string -> Bytes,
    parse: string -> Option<Config>,
    edit: (string, seq<Edit>) -> string,
    readManifest: string -> Option<Manifest>,
    printManifest: Manifest -> string)

  /** `SetDefaultAgent(None)` removes the property. */
  datatype Edit = SetPlugin(value: Json) | SetDefaultAgent(agent: Option<Json>)

  datatype Error =
    | Malformed | NotManaged | NotIterable
    | BackupThrows | CorruptManifest | ProvisionalFailed | ConfigWriteFailed | FinalizeFailed

  /** Which steps of a transaction succeed. The last two are those that put the two files back. */
  datatype World = World(
    backup: bool, provisional: bool, write: bool, finalize: bool, restoreConfig: bool, restoreManifest: bool)

  // ----- JSON -----

  /** `String(value)` */
  function Text(j: Json): string {
    match j
    case Null => "null"
    case Str(t) => t
    case List(items) => Joined(items)
    case Other(t, _) => t
  }

  function Joined(items: seq<Json>): string {
    if items == [] then ""
    else
      var first := if items[0].Null? then "" else Text(items[0]);
      if |items| == 1 then first else first + "," + Joined(items[1..])
  }

  predicate Truthy(j: Json) {
    match j
    case Null => false
    case Str(t) => t != ""
    case List(_) => true
    case Other(_, truthy) => truthy
  }

  function Characters(t: string): seq<Json> {
    seq(|t|, i requires 0 <= i < |t| => Str([t[i]]))
  }

  /** `[...(value || [])]`: a string spreads into its characters, and other truthy values do not spread. */
  function Spread(value: Option<Json>): Option<seq<Json>> {
    if value.None? || !Truthy(value.value) then Some([])
    else
      match value.value
      case List(items) => Some(items)
      case Str(t) => Some(Characters(t))
      case _ => None
  }

  predicate IsNullish(value: Option<Json>) {
    value.None? || value.value.Null?
  }

  // ----- Edits -----

  /** Whether a list element is the plugin: a local reference must be the same, a package may carry a version. */
  predicate IsRef(ref: string, p: Json) {
    p == Str(ref) || (!("file://" <= ref) && ref + "@" <= Text(p))
  }

  function Without(ref: string, items: seq<Json>): seq<Json> {
    if items == [] then []
    else if IsRef(ref, items[0]) then Without(ref, items[1..])
    else [items[0]] + Without(ref, items[1..])
  }

  predicate PluginPresent(ref: string, c: Config) {
    c.plugin.Some? && c.plugin.value.List? && exists p <- c.plugin.value.items :: IsRef(ref, p)
  }

  function Applied(c: Config, edits: seq<Edit>): Config
    decreases |edits|
  {
    if edits == [] then c
    else
      Applied(
        match edits[0] case SetPlugin(v) => c.(plugin := Some(v)) case SetDefaultAgent(v) => c.(defaultAgent := v),
        edits[1..])
  }

  const HEIDI := Str("heidi")

  /** What an install would edit, or that the plugin setting cannot be extended. */
  function InstallEdits(ref: string, c: Config): Result<seq<Edit>, Error> {
    var agent := if IsNullish(c.defaultAgent) then [SetDefaultAgent(Some(HEIDI))] else [];
    if PluginPresent(ref, c) then Ok(agent)
    else if Spread(c.plugin).None? then Err(NotIterable)
    else Ok([SetPlugin(List(Spread(c.plugin).value + [Str(ref)]))] + agent)
  }

  function InstallManifest(ref: string, c: Config): Manifest {
    Manifest(ref, !PluginPresent(ref, c), PluginPresent(ref, c), IsNullish(c.defaultAgent),
             if c.defaultAgent.None? then Null else c.defaultAgent.value, false)
  }

  function UninstallEdits(m: Manifest, c: Config): seq<Edit> {
    (if m.pluginAdded && c.plugin.Some? && c.plugin.value.List?
        && |Without(m.pluginRef, c.plugin.value.items)| < |c.plugin.value.items|
     then [SetPlugin(List(Without(m.pluginRef, c.plugin.value.items)))] else [])
    + if !m.defaultAgentAdded then []
      else [SetDefaultAgent(if m.previousDefaultAgent.Null? then None else Some(m.previousDefaultAgent))]
  }

  // ----- The transaction -----

  /** What is on disk, read and parsed. A missing configuration is an empty one. */
  function ConfigOf(fmt: Format, f: Files): Option<Config> {
    if f.config.None? then Some(Config(None, None)) else fmt.parse(fmt.decode(f.config.value))
  }

  function ManifestOf(fmt: Format, f: Files): Option<Manifest> {
    if f.manifest.None? then None else fmt.readManifest(fmt.decode(f.manifest.value))
  }

  function Edited(fmt: Format, f: Files, edits: seq<Edit>): Bytes {
    fmt.encode(fmt.edit(if f.config.None? then "{}" else fmt.decode(f.config.value), edits))
  }

  function Printed(fmt: Format, m: Manifest): Bytes {
    fmt.encode(fmt.printManifest(m))
  }

  /** `restorePriorState` for one file: what was read of it is written again, and a file that was not there is
      removed. */
  function PutBack(fmt: Format, before: Option<Bytes>, now: Option<Bytes>, restores: bool): Option<Bytes> {
    if !restores then now
    else if before.None? then None
    else Some(fmt.encode(fmt.decode(before.value)))
  }

  function Restored(fmt: Format, before: Files, now: Files, w: World): Files {
    Files(
      PutBack(fmt, before.config, now.config, w.restoreConfig),
      PutBack(fmt, before.manifest, now.manifest, w.restoreManifest))
  }

  /** Backup, provisional manifest, config, final manifest; a failure after the provisional manifest puts both
      files back. */
  function Transact(fmt: Format, f: Files, edits: seq<Edit>, m: Manifest, w: World): (Files, Result<(), Error>) {
    if ConfigOf(fmt, f).None? then (f, Err(Malformed))
    else if f.config.Some? && !w.backup then (f, Err(BackupThrows))
    else if f.manifest.Some? && ManifestOf(fmt, f).None? then (f, Err(CorruptManifest))
    else if !w.provisional then (f, Err(ProvisionalFailed))
    else
      var announced := f.(manifest := Some(Printed(fmt, m.(provisional := true))));
      if !w.write then (Restored(fmt, f, announced, w), Err(ConfigWriteFailed))
      else
        var written := announced.(config := Some(Edited(fmt, f, edits)));
        if !w.finalize then (Restored(fmt, f, written, w), Err(FinalizeFailed))
        else (written.(manifest := Some(Printed(fmt, m.(provisional := false)))), Ok(()))
  }

  // ----- Commands -----

  /** `registerPlugin`. The reply says whether anything changed. */
  function Install(fmt: Format, f: Files, ref: string, w: World): (Files, Result<bool, Error>) {
    if ConfigOf(fmt, f).None? then (f, Err(Malformed))
    else
      var c := ConfigOf(fmt, f).value;
      match InstallEdits(ref, c)
      case Err(e) => (f, Err(e))
      case Ok(edits) =>
        if edits == [] then (f, Ok(false))
        else
          var (g, r) := Transact(fmt, f, edits, InstallManifest(ref, c), w);
          (g, if r.Ok? then Ok(true) else Err(r.error))
  }

  /** An uninstall that is not forced. */
  function Uninstall(fmt: Format, f: Files, w: World): (Files, Result<bool, Error>) {
    if f.config.None? then (f, Ok(false))
    else if ConfigOf(fmt, f).None? then (f, Err(Malformed))
    else if f.manifest.None? then (f, Err(NotManaged))
    else if ManifestOf(fmt, f).None? then (f, Err(CorruptManifest))
    else if ManifestOf(fmt, f).value.pluginRef == "" then (f, Err(NotManaged))
    else
      var m := ManifestOf(fmt, f).value;
      var edits := UninstallEdits(m, ConfigOf(fmt, f).value);
      if edits == [] then (f, Ok(false))
      else
        var (g, r) := Transact(fmt, f, edits, m.(pluginAdded := false), w);
        (g, if r.Ok? then Ok(true) else Err(r.error))
  }
}
