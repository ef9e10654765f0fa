/** The daemon object: its map is replaced only after the state file has been. */
module KeyValueDaemon {
  import opened Options
  import opened KeyValueModel

  class FdxDaemon {
    const limits: Limits
    const workspaceIds: string -> Option<string>
    var values: Values
    var disk: Disk

    constructor (limits: Limits, workspaceIds: string -> Option<string>, disk: Disk)
      ensures this.limits == limits && this.workspaceIds == workspaceIds
      ensures State(this.values, this.disk) == Restarted(limits, disk)
    {
      this.limits, this.workspaceIds := limits, workspaceIds;
      this.disk := disk;
      var read: Values := [];
      if disk.file.Some? && disk.file.value.Written? {
        var parsed := disk.file.value.entries;
        for k := 0 to |parsed|
          invariant read == Load(limits, parsed[..k])
        {
          var e := parsed[k];
          assert parsed[..k + 1][..k] == parsed[..k];
          if Units(e.value) <= limits.maxValueBytes {
            read := Set(read, e.key, e.value);
          }
        }
        assert parsed[..|parsed|] == parsed;
      }
      this.values := read;
    }

    ghost function Model(): State
      reads this
    {
      State(values, disk)
    }

    method PersistValues(next: Values, io: Io) returns (failure: Option<Error>)
      modifies this`disk
      ensures match Persist(limits, old(disk), next, io)
              case Ok(d) => failure == None && disk == d
              case Err((e, d)) => failure == Some(e) && disk == d
    {
      var entries := LastEntries(next, limits.maxEntries);
      if TextBytes(entries) > limits.maxEntries * limits.maxValueBytes {
        return Some(CacheLimit);
      }
      if io.DirectoryFails? {
        return Some(IoFailure);
      }
      if io.WriteFails? {
        disk := disk.(temporary := Some(Torn));
        return Some(IoFailure);
      }
      disk := disk.(temporary := Some(Written(entries)));
      if io.RenameFails? {
        return Some(IoFailure);
      }
      disk := Disk(disk.temporary, None);
      return None;
    }

    method Handle(r: Request, io: Io) returns (reply: Result<Reply, Error>)
      modifies this`values, this`disk
      ensures (Model(), reply) == Execute(limits, workspaceIds, old(Model()), r, io)
    {
      if r.id.None? || Units(r.id.value) > 200 || r.method_.None? || r.workspace.None? {
        return Err(InvalidRequest);
      }
      var id := workspaceIds(r.workspace.value);
      if id.None? {
        return Err(WorkspaceEscape);
      }
      var key := KeyOf(id.value, r.key);
      if r.key.NotText? || (r.key.Text? && (Units(r.key.text) > 500 || '\0' in r.key.text)) {
        return Err(InvalidKey);
      }
      var next: Values;
      if r.method_.value == "health" {
        return Ok(Health(|values|));
      } else if r.method_.value in ["search", "outline", "impact"] {
        return Err(CodeIndexUnavailable);
      } else if r.method_.value == "invalidate" {
        next := Without(values, key);
      } else if r.method_.value == "get" {
        return Ok(Value(Get(values, key)));
      } else if r.method_.value == "put" {
        if r.value.None? {
          return Err(NotJson);
        }
        if Bytes(r.value.value) > limits.maxValueBytes {
          return Err(ValueLimit);
        }
        if !Has(values, key) && |values| >= limits.maxEntries {
          return Err(CacheLimit);
        }
        next := Set(values, key, r.value.value);
      } else {
        return Err(MethodNotAllowed);
      }
      var failure := PersistValues(next, io);
      if failure.Some? {
        return Err(failure.value);
      }
      values := next;
      return Ok(Done);
    }
  }
}
