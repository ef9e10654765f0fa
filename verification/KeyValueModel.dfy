/** The persistent key/value daemon, configured without a code index, as a state machine: its in-memory map, its
    state file, and the points at which writing that file can fail or the process can die. */
module KeyValueModel {
  import opened Options

  /** A value is its JSON text. */
  datatype Entry = Entry(key: string, value: string)

  /** A `Map` in insertion order. */
  type Values = seq<Entry>

  /** The state file, or its temporary copy: entries, or what an interrupted write left. */
  datatype File = Written(entries: Values) | Torn

  datatype Disk = Disk(file: Option<File>, temporary: Option<File>)

  datatype Limits = Limits(maxEntries: nat, maxValueBytes: nat)

  datatype KeyField = NoKey | NotText | Text(text: string)

  /** A parsed request. A field of the wrong type is `None`. */
  datatype Request = Request(
    id: Option<string>, method_: Option<string>, workspace: Option<string>, key: KeyField, value: Option<string>)

  datatype Error =
    | InvalidRequest | WorkspaceEscape | InvalidKey | NotJson | ValueLimit | CacheLimit
    | CodeIndexUnavailable | MethodNotAllowed | IoFailure

  datatype Reply = Done | Value(value: Option<string>) | Health(entries: nat)

  /** What happens to a write of the state file. */
  datatype Io = Succeeds | DirectoryFails | WriteFails | RenameFails

  // ----- Sizes -----

  function CharBytes(c: char): nat {
    var n := c as int;
    if n < 0x80 then 1 else if n < 0x800 then 2 else if n < 0x1_0000 then 3 else 4
  }

  /** Length in UTF-8. */
  function Bytes(s: string): nat {
    if s == [] then 0 else CharBytes(s[0]) + Bytes(s[1..])
  }

  /** Length in UTF-16, which is what `length` says. */
  function Units(s: string): nat {
    if s == [] then 0 else (if s[0] as int < 0x1_0000 then 1 else 2) + Units(s[1..])
  }

  /** A character inside a JSON string. */
  function QuotedCharBytes(c: char): nat {
    if c in "\"\\\n\r\t" || c as int == 8 || c as int == 12 then 2
    else if c as int < 0x20 then 6
    else CharBytes(c)
  }

  function QuotedBytes(s: string): nat {
    if s == [] then 0 else QuotedCharBytes(s[0]) + QuotedBytes(s[1..])
  }

  /** `["key",value]` */
  function EntryBytes(e: Entry): nat {
    5 + QuotedBytes(e.key) + Bytes(e.value)
  }

  /** The entries, with commas between them. */
  function ListBytes(values: Values): nat
    decreases |values|
  {
    if values == [] then 0
    else ListBytes(values[..|values| - 1]) + (if |values| == 1 then 0 else 1) + EntryBytes(values[|values| - 1])
  }

  function TextBytes(values: Values): nat {
    2 + ListBytes(values)
  }

  // ----- The map -----

  predicate Has(values: Values, key: string) {
    exists i :: 0 <= i < |values| && values[i].key == key
  }

  function Get(values: Values, key: string): Option<string> {
    if values == [] then None
    else if values[0].key == key then Some(values[0].value)
    else Get(values[1..], key)
  }

  /** `Map.set`: an old key keeps its place. */
  function Set(values: Values, key: string, value: string): Values {
    if values == [] then [Entry(key, value)]
    else if values[0].key == key then [Entry(key, value)] + values[1..]
    else [values[0]] + Set(values[1..], key, value)
  }

  /** The entries whose keys do not start with `prefix`. */
  function Without(values: Values, prefix: string): Values {
    if values == [] then []
    else if prefix <= values[0].key then Without(values[1..], prefix)
    else [values[0]] + Without(values[1..], prefix)
  }

  /** What loading a list of entries gives. */
  function Load(limits: Limits, entries: Values): Values
    decreases |entries|
  {
    if entries == [] then []
    else
      var before := Load(limits, entries[..|entries| - 1]);
      var e := entries[|entries| - 1];
      if Units(e.value) <= limits.maxValueBytes then Set(before, e.key, e.value) else before
  }

  /** What a daemon that starts on this disk has in memory. A missing or torn file is an empty map. */
  function Loaded(limits: Limits, disk: Disk): Values {
    if disk.file.Some? && disk.file.value.Written? then Load(limits, disk.file.value.entries) else []
  }

  // ----- Writing the state file -----

  /** `slice(-n)`: the last n, but all of them when n is zero. */
  function LastEntries(values: Values, n: nat): Values {
    if n == 0 || |values| <= n then values else values[|values| - n..]
  }

  function Persist(limits: Limits, disk: Disk, next: Values, io: Io): Result<Disk, (Error, Disk)> {
    var entries := LastEntries(next, limits.maxEntries);
    if TextBytes(entries) > limits.maxEntries * limits.maxValueBytes then Err((CacheLimit, disk))
    else match io
      case DirectoryFails => Err((IoFailure, disk))
      case WriteFails => Err((IoFailure, disk.(temporary := Some(Torn))))
      case RenameFails => Err((IoFailure, disk.(temporary := Some(Written(entries)))))
      case Succeeds => Ok(Disk(Some(Written(entries)), None))
  }

  // ----- Requests -----

  /** What a request asks to change, once it has passed every test that comes before the write. */
  datatype Plan = Refused(error: Error) | Read(reply: Reply) | Write(next: Values)

  /** `workspaceIds` gives the identity of a workspace inside the root, and `None` for one outside it. */
  function PlanOf(limits: Limits, workspaceIds: string -> Option<string>, values: Values, r: Request): Plan {
    if r.id.None? || Units(r.id.value) > 200 || r.method_.None? || r.workspace.None? then Refused(InvalidRequest)
    else if workspaceIds(r.workspace.value).None? then Refused(WorkspaceEscape)
    else if r.key.NotText? || (r.key.Text? && (Units(r.key.text) > 500 || '\0' in r.key.text)) then Refused(InvalidKey)
    else
      var key := KeyOf(workspaceIds(r.workspace.value).value, r.key);
      match r.method_.value
      case "health" => Read(Health(|values|))
      case "search" => Refused(CodeIndexUnavailable)
      case "outline" => Refused(CodeIndexUnavailable)
      case "impact" => Refused(CodeIndexUnavailable)
      case "get" => Read(Value(Get(values, key)))
      case "invalidate" => Write(Without(values, key))
      case "put" =>
        if r.value.None? then Refused(NotJson)
        else if Bytes(r.value.value) > limits.maxValueBytes then Refused(ValueLimit)
        else if !Has(values, key) && |values| >= limits.maxEntries then Refused(CacheLimit)
        else Write(Set(values, key, r.value.value))
      case _ => Refused(MethodNotAllowed)
  }

  /** An empty key is no key. */
  function KeyOf(id: string, key: KeyField): string {
    if key.Text? && key.text != "" then id + ":" + key.text else id
  }

  // ----- Runs -----

  datatype State = State(values: Values, disk: Disk)

  /** The process may die while it handles a request: before the temporary file is written, while it is,
      before the rename, or after it. A restart loads the state file. */
  datatype Moment = BeforeWrite | DuringWrite | BeforeRename | AfterRename

  datatype Event = Handle(request: Request, io: Io) | Dies(request: Request, at: Moment) | Restart

  function Execute(
      limits: Limits, workspaceIds: string -> Option<string>, s: State, r: Request, io: Io)
      : (State, Result<Reply, Error>)
  {
    match PlanOf(limits, workspaceIds, s.values, r)
    case Refused(e) => (s, Err(e))
    case Read(reply) => (s, Ok(reply))
    case Write(next) =>
      match Persist(limits, s.disk, next, io)
      case Ok(disk) => (State(next, disk), Ok(Done))
      case Err((e, disk)) => (s.(disk := disk), Err(e))
  }

  /** The disk a dying process leaves. */
  function Remains(limits: Limits, workspaceIds: string -> Option<string>, s: State, r: Request, at: Moment): Disk {
    var plan := PlanOf(limits, workspaceIds, s.values, r);
    if !plan.Write? then s.disk
    else
      var io := match at
        case BeforeWrite => DirectoryFails
        case DuringWrite => WriteFails
        case BeforeRename => RenameFails
        case AfterRename => Succeeds;
      var done := Persist(limits, s.disk, plan.next, io);
      if done.Ok? then done.value else done.error.1
  }

  function Restarted(limits: Limits, disk: Disk): State {
    State(Loaded(limits, disk), disk)
  }

  function Step(limits: Limits, workspaceIds: string -> Option<string>, s: State, e: Event): State {
    match e
    case Handle(r, io) => Execute(limits, workspaceIds, s, r, io).0
    case Dies(r, at) => Restarted(limits, Remains(limits, workspaceIds, s, r, at))
    case Restart => Restarted(limits, s.disk)
  }

  function Run(limits: Limits, workspaceIds: string -> Option<string>, s: State, events: seq<Event>): State
    decreases |events|
  {
    if events == [] then s
    else Step(limits, workspaceIds, Run(limits, workspaceIds, s, events[..|events| - 1]), events[|events| - 1])
  }
}
