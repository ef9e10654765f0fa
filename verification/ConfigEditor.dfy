/** Config updates with a backup, pruning of old backups, and rollback, on one directory. */
module ConfigEditor {
  import opened Options
  import opened BackupNames

  type Bytes = seq<bv8>

  type Directory = map<string, Bytes>

  /** UTF-8 and JSONC: decoding replaces what is not UTF-8, `parses` accepts a text without parse errors, `edit`
      applies the edits or throws. */
  datatype Format = Format(
    decode: Bytes -> string, encode: string -> Bytes, parses: string -> bool, edit: string -> Option<string>)

  datatype Copy = Copied | CopyFails(partial: Option<Bytes>)

  datatype Replacing = Replaced | WriteFails(partial: Option<Bytes>) | RenameFails

  /** What the file system and the clock do during one call. `stuck` are the files that cannot be unlinked, `lists`
      whether the directory can be listed. */
  datatype World = World(now: nat, copy: Copy, lists: bool, stuck: set<string>, temporary: string, replacing: Replacing)

  datatype Error = Malformed | BackupFailed | EditFailed | WriteFailed | NoBackups | ListFailed

  /** `None`: there was no file to back up. */
  type Updated = Result<Option<string>, Error>

  function Prefix(base: string): string {
    base + ".bak."
  }

  function Backups(dir: Directory, base: string): set<string> {
    set n | n in dir && Prefix(base) <= n
  }

  // ----- As functions of the directory -----

  /** The oldest names go until at most `max` are left. A name that cannot be unlinked counts as gone. */
  ghost function Pruned(dir: Directory, backups: set<string>, max: nat, stuck: set<string>): Directory
    decreases |backups|
  {
    if |backups| <= max then dir
    else
      var oldest := Least(backups);
      Pruned(if oldest in stuck then dir else dir - {oldest}, backups - {oldest}, max, stuck)
  }

  ghost function Retained(dir: Directory, base: string, max: nat, w: World): Directory {
    if max == 0 || !w.lists then dir else Pruned(dir, Backups(dir, base), max, w.stuck)
  }

  ghost function BackedUp(dir: Directory, base: string, max: nat, w: World): (Directory, Option<string>)
    requires base in dir
  {
    var name := BackupName(base, w.now);
    match w.copy
    case Copied => (Retained(dir[name := dir[base]], base, max, w), Some(name))
    case CopyFails(partial) => (if partial.Some? then dir[name := partial.value] else dir, None)
  }

  /** Temporary file and rename. A temporary file left by a failure is removed, unless it is stuck. */
  function Replace(dir: Directory, base: string, content: Bytes, w: World): (Directory, bool) {
    match w.replacing
    case Replaced => (dir[base := content] - (if w.temporary == base then {} else {w.temporary}), true)
    case WriteFails(None) => (dir, false)
    case WriteFails(Some(b)) => (CleanedUp(dir, b, w), false)
    case RenameFails => (CleanedUp(dir, content, w), false)
  }

  function CleanedUp(dir: Directory, left: Bytes, w: World): Directory {
    if w.temporary in w.stuck then dir[w.temporary := left] else dir - {w.temporary}
  }

  ghost function Update(f: Format, dir: Directory, base: string, max: nat, w: World): (Directory, Updated) {
    if base in dir && !f.parses(f.decode(dir[base])) then (dir, Err(Malformed))
    else
      var (backedUp, name) := if base in dir then BackedUp(dir, base, max, w) else (dir, None);
      if base in dir && name.None? then (backedUp, Err(BackupFailed))
      else
        var edited := f.edit(if base in dir then f.decode(dir[base]) else "{}");
        if edited.None? then (backedUp, Err(EditFailed))
        else
          var (replaced, ok) := Replace(backedUp, base, f.encode(edited.value), w);
          (replaced, if ok then Ok(name) else Err(WriteFailed))
  }

  /** Restores the backup whose name sorts last. */
  ghost function Rollback(f: Format, dir: Directory, base: string, w: World): (Directory, Result<string, Error>) {
    if !w.lists then (dir, Err(ListFailed))
    else if Backups(dir, base) == {} then (dir, Err(NoBackups))
    else
      var latest := Greatest(Backups(dir, base));
      var (replaced, ok) := Replace(dir, base, f.encode(f.decode(dir[latest])), w);
      (replaced, if ok then Ok(latest) else Err(WriteFailed))
  }

  // ----- The directory, updated in place -----

  class ConfigDirectory {
    var files: Directory

    constructor (files: Directory)
      ensures this.files == files
    {
      this.files := files;
    }

    method EnforceRetention(base: string, max: nat, w: World)
      modifies this
      ensures files == Retained(old(files), base, max, w)
    {
      if max == 0 || !w.lists {
        return;
      }
      var backups := Backups(files, base);
      while |backups| > max
        invariant Pruned(files, backups, max, w.stuck) == Pruned(old(files), Backups(old(files), base), max, w.stuck)
        decreases |backups|
      {
        ExtremesExist(backups);
        var oldest :| IsLeast(oldest, backups);
        Total(oldest, Least(backups));
        backups := backups - {oldest};
        if oldest !in w.stuck {
          files := files - {oldest};
        }
      }
    }

    method CreateBackup(base: string, max: nat, w: World) returns (name: Option<string>)
      requires base in files
      modifies this
      ensures (files, name) == BackedUp(old(files), base, max, w)
    {
      var path := BackupName(base, w.now);
      if w.copy.CopyFails? {
        if w.copy.partial.Some? {
          files := files[path := w.copy.partial.value];
        }
        return None;
      }
      files := files[path := files[base]];
      EnforceRetention(base, max, w);
      return Some(path);
    }

    method ReplaceFile(base: string, content: Bytes, w: World) returns (ok: bool)
      requires w.temporary !in files && w.temporary != base
      modifies this
      ensures (files, ok) == Replace(old(files), base, content, w)
    {
      if w.replacing == WriteFails(None) {
        return false;
      }
      files := files[w.temporary := if w.replacing.WriteFails? then w.replacing.partial.value else content];
      if w.replacing.Replaced? {
        files := files[base := files[w.temporary]] - {w.temporary};
        assert files == old(files)[base := content] - {w.temporary};
        return true;
      }
      if w.temporary !in w.stuck {
        files := files - {w.temporary};
        assert files == old(files) - {w.temporary};
      }
      return false;
    }

    method SafeUpdate(f: Format, base: string, max: nat, w: World) returns (r: Updated)
      requires w.temporary !in files && w.temporary != base && !(Prefix(base) <= w.temporary)
      modifies this
      ensures (files, r) == Update(f, old(files), base, max, w)
    {
      var raw := "{}";
      var name := None;
      if base in files {
        raw := f.decode(files[base]);
        if !f.parses(raw) {
          return Err(Malformed);
        }
        RetainedKeeps(files[BackupName(base, w.now) := files[base]], base, max, w, w.temporary);
        name := CreateBackup(base, max, w);
        if name.None? {
          return Err(BackupFailed);
        }
      }
      var edited := f.edit(raw);
      if edited.None? {
        return Err(EditFailed);
      }
      var ok := ReplaceFile(base, f.encode(edited.value), w);
      return if ok then Ok(name) else Err(WriteFailed);
    }

    method RollbackConfig(f: Format, base: string, w: World) returns (r: Result<string, Error>)
      requires w.temporary !in files && w.temporary != base
      modifies this
      ensures (files, r) == Rollback(f, old(files), base, w)
    {
      if !w.lists {
        return Err(ListFailed);
      }
      var backups := Backups(files, base);
      if backups == {} {
        return Err(NoBackups);
      }
      ExtremesExist(backups);
      var latest :| IsGreatest(latest, backups);
      Total(latest, Greatest(backups));
      var ok := ReplaceFile(base, f.encode(f.decode(files[latest])), w);
      return if ok then Ok(latest) else Err(WriteFailed);
    }
  }

  // ----- Pruning -----

  /** Pruning touches only backups, changes no content, and never takes the last name. */
  lemma {:induction false} PrunedKeeps(dir: Directory, backups: set<string>, max: nat, stuck: set<string>, n: string)
    ensures var p := Pruned(dir, backups, max, stuck);
            && (n in p ==> n in dir && p[n] == dir[n])
            && (n in dir && n !in backups ==> n in p)
            && (n in dir && max > 0 && IsGreatest(n, backups) ==> n in p)
    decreases |backups|
  {
    if |backups| > max {
      var oldest := Least(backups);
      var rest := backups - {oldest};
      PrunedKeeps(if oldest in stuck then dir else dir - {oldest}, rest, max, stuck, n);
      if n == oldest {
        LeastAndGreatest(n, backups);
      }
    }
  }

  lemma LeastAndGreatest(n: string, s: set<string>)
    requires IsLeast(n, s)
    ensures IsGreatest(n, s) ==> |s| == 1
  {
    if IsGreatest(n, s) {
      forall y | y in s
        ensures y == n
      {
        Total(y, n);
      }
      assert s == {n};
    }
  }

  /** Pruning that is not hindered leaves as many backups as the limit allows, each later than every one that is
      gone. */
  lemma {:induction false} PrunedBound(dir: Directory, backups: set<string>, max: nat)
    requires backups <= dir.Keys
    ensures var kept := Pruned(dir, backups, max, {}).Keys * backups;
            && |kept| == (if |backups| < max then |backups| else max)
            && forall x, y :: x in kept && y in backups - kept ==> AtMost(y, x)
    decreases |backups|
  {
    if |backups| > max {
      var oldest := Least(backups);
      var rest := backups - {oldest};
      PrunedBound(dir - {oldest}, rest, max);
      var p := Pruned(dir, backups, max, {});
      assert p == Pruned(dir - {oldest}, rest, max, {});
      PrunedKeeps(dir - {oldest}, rest, max, {}, oldest);
      assert p.Keys * backups == p.Keys * rest;
    } else {
      assert Pruned(dir, backups, max, {}).Keys * backups == backups;
    }
  }

  lemma RetainedKeeps(dir: Directory, base: string, max: nat, w: World, n: string)
    ensures var p := Retained(dir, base, max, w);
            && (n in p ==> n in dir && p[n] == dir[n])
            && (n in dir && !(Prefix(base) <= n) ==> n in p)
            && (n in dir && IsGreatest(n, Backups(dir, base)) ==> n in p)
  {
    PrunedKeeps(dir, Backups(dir, base), max, w.stuck, n);
  }

  // ----- What an update does not touch -----

  /** A failed update leaves the file as it was, byte for byte; any update leaves every other file but the
      backups and the temporary one. */
  lemma UpdateTouches(f: Format, dir: Directory, base: string, max: nat, w: World, n: string)
    requires w.temporary !in dir && w.temporary != base && !(Prefix(base) <= w.temporary)
    requires !(Prefix(base) <= n) && n != w.temporary
    ensures var (after, r) := Update(f, dir, base, max, w);
            r.Err? || n != base ==> (n in after <==> n in dir) && (n in dir ==> after[n] == dir[n])
  {
    if base in dir {
      RetainedKeeps(dir[BackupName(base, w.now) := dir[base]], base, max, w, n);
    }
  }

  // ----- Update, then rollback -----

  /** The backup that a rollback right after an update picks, and what it holds. */
  ghost function Picked(dir: Directory, base: string, w: World): (string, Bytes)
    requires base in dir
  {
    var name := BackupName(base, w.now);
    var with := dir[name := dir[base]];
    assert name in Backups(with, base);
    var latest := Greatest(Backups(with, base));
    (latest, with[latest])
  }

  /** Whatever the retention limit, an update and then a rollback bring back the backup whose name sorts last,
      counting the one just made: so the file is restored exactly if that backup reads back, through UTF-8, as the
      file was. */
  lemma RollbackRestoresIff(f: Format, dir: Directory, base: string, max: nat, w: World, again: World)
    requires base in dir && w.temporary !in dir && w.temporary != base && !(Prefix(base) <= w.temporary)
    requires Update(f, dir, base, max, w).1.Ok? && Rollback(f, Update(f, dir, base, max, w).0, base, again).1.Ok?
    requires again.temporary != base
    ensures var (latest, content) := Picked(dir, base, w);
            var (after, r) := Rollback(f, Update(f, dir, base, max, w).0, base, again);
            && r == Ok(latest)
            && base in after && after[base] == f.encode(f.decode(content))
            && (after[base] == dir[base] <==> f.encode(f.decode(content)) == dir[base])
  {
    hide Pruned;
    var with := dir[BackupName(base, w.now) := dir[base]];
    var kept := Retained(with, base, max, w);
    var updated := Update(f, dir, base, max, w).0;
    var latest := Picked(dir, base, w).0;
    RetainedKeeps(with, base, max, w, latest);
    var left := Greatest(Backups(updated, base));
    RetainedKeeps(with, base, max, w, left);
    assert left in Backups(with, base);
    assert latest in Backups(updated, base);
    Total(left, latest);
  }

  /** If the old backups have timestamps of the same width, none later, the new one is picked: the file is restored
      byte for byte exactly if it reads back as it was, as valid UTF-8 does. */
  lemma LaterBackupRestores(f: Format, dir: Directory, base: string, max: nat, w: World, again: World)
    requires base in dir && w.temporary !in dir && w.temporary != base && !(Prefix(base) <= w.temporary)
    requires Update(f, dir, base, max, w).1.Ok? && Rollback(f, Update(f, dir, base, max, w).0, base, again).1.Ok?
    requires again.temporary != base
    requires forall n <- Backups(dir, base) ::
               exists t: nat :: IsBackupOf(n, base, t) && |Decimal(t)| == |Decimal(w.now)| && t <= w.now
    ensures Rollback(f, Update(f, dir, base, max, w).0, base, again).1 == Ok(BackupName(base, w.now))
    ensures Rollback(f, Update(f, dir, base, max, w).0, base, again).0[base] == dir[base]
       <==> f.encode(f.decode(dir[base])) == dir[base]
  {
    hide Update, Rollback, Decimal;
    RollbackRestoresIff(f, dir, base, max, w, again);
    var name := BackupName(base, w.now);
    var latest := Picked(dir, base, w).0;
    if latest != name {
      assert latest in Backups(dir, base);
      var t: nat :| IsBackupOf(latest, base, t) && |Decimal(t)| == |Decimal(w.now)| && t <= w.now;
      BackupsSortByAge(base, t, w.now);
      Total(latest, name);
      assert false;
    }
  }

  predicate IsBackupOf(n: string, base: string, t: nat) {
    n == BackupName(base, t)
  }

  /** A copy that fails half way makes the update fail and leaves the file alone. A rollback then installs the torn
      copy if and only if no older backup sorts after it. */
  lemma TornBackupIsRestoredIff(f: Format, dir: Directory, base: string, max: nat, w: World, again: World, torn: Bytes)
    requires base in dir && f.parses(f.decode(dir[base])) && w.copy == CopyFails(Some(torn))
    requires again.lists && again.replacing.Replaced? && again.temporary != base
    ensures var (failed, r) := Update(f, dir, base, max, w);
            && r == Err(BackupFailed) && base in failed && failed[base] == dir[base]
            && (Rollback(f, failed, base, again).1 == Ok(BackupName(base, w.now))
                <==> forall n <- Backups(dir, base) :: AtMost(n, BackupName(base, w.now)))
            && (Rollback(f, failed, base, again).1 == Ok(BackupName(base, w.now))
                ==> Rollback(f, failed, base, again).0[base] == f.encode(f.decode(torn)))
  {
    var failed := Update(f, dir, base, max, w).0;
    var name := BackupName(base, w.now);
    assert Backups(failed, base) == Backups(dir, base) + {name};
    Total(name, Greatest(Backups(failed, base)));
  }

  /** In particular it does when there is no older backup. */
  lemma TornBackupIsRestored(f: Format, dir: Directory, base: string, max: nat, w: World, again: World, torn: Bytes)
    requires base in dir && f.parses(f.decode(dir[base])) && w.copy == CopyFails(Some(torn)) && Backups(dir, base) == {}
    requires again.lists && again.replacing.Replaced? && again.temporary != base
    ensures var failed := Update(f, dir, base, max, w).0;
            var (after, r) := Rollback(f, failed, base, again);
            r.Ok? && after[base] == f.encode(f.decode(torn))
  {
    TornBackupIsRestoredIff(f, dir, base, max, w, again, torn);
    hide Update, Rollback;
  }
}
