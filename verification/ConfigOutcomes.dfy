/** What a config update and a rollback answer and leave in the directory. */
module ConfigOutcomes {
  import opened Options
  import opened BackupNames
  import opened ConfigEditor

  /** An update fails for a file that does not parse, a copy that fails, an edit that throws or a replacement that
      fails, in this order; and otherwise answers with the name of the backup, if there was a file to back up. */
  lemma UpdateAnswerIff(f: Format, dir: Directory, base: string, max: nat, w: World)
    ensures Update(f, dir, base, max, w).1 ==
              if base in dir && !f.parses(f.decode(dir[base])) then Err(Malformed)
              else if base in dir && w.copy.CopyFails? then Err(BackupFailed)
              else if f.edit(if base in dir then f.decode(dir[base]) else "{}") == None then Err(EditFailed)
              else if w.replacing != Replaced then Err(WriteFailed)
              else Ok(if base in dir then Some(base + ".bak." + Decimal(w.now)) else None)
  {
    hide Retained, CleanedUp;
  }

  /** An update that succeeds leaves the edited text in the file and no temporary file. One that fails to write leaves a
      temporary file only if something was written there that cannot be removed. */
  lemma UpdateLeaves(f: Format, dir: Directory, base: string, max: nat, w: World)
    requires w.temporary !in dir && w.temporary != base && !(Prefix(base) <= w.temporary)
    ensures var (after, r) := Update(f, dir, base, max, w);
            var edited := f.edit(if base in dir then f.decode(dir[base]) else "{}");
            && (r.Ok? ==> edited.Some? && base in after && after[base] == f.encode(edited.value))
            && (w.temporary in after <==>
                  r == Err(WriteFailed) && w.temporary in w.stuck && w.replacing != WriteFails(None))
            && (w.temporary in after ==>
                  after[w.temporary] == if w.replacing.RenameFails? then f.encode(edited.value)
                                        else w.replacing.partial.value)
  {
    hide Retained;
    if base in dir {
      RetainedKeeps(dir[BackupName(base, w.now) := dir[base]], base, max, w, w.temporary);
    }
  }

  /** Without a limit, or when the directory cannot be listed, a backup adds the copy and removes nothing. */
  lemma UnprunedBackup(dir: Directory, base: string, max: nat, w: World)
    requires base in dir && w.copy.Copied? && (max == 0 || !w.lists)
    ensures BackedUp(dir, base, max, w).0 == dir[BackupName(base, w.now) := dir[base]]
  {
  }

  /** With a limit, and unless some cannot be removed, as many backups are left as it allows. */
  lemma PrunedBackup(dir: Directory, base: string, max: nat, w: World)
    requires base in dir && w.copy.Copied? && max > 0 && w.lists && w.stuck == {}
    ensures var all := Backups(dir[BackupName(base, w.now) := dir[base]], base);
            var left := Backups(BackedUp(dir, base, max, w).0, base);
            left <= all && |left| == if |all| < max then |all| else max
  {
    var with := dir[BackupName(base, w.now) := dir[base]];
    var all := Backups(with, base);
    var after := Pruned(with, all, max, {});
    PrunedBound(with, all, max);
    forall n
      ensures n in after ==> n in with
    {
      PrunedKeeps(with, all, max, {}, n);
    }
    assert Backups(after, base) == after.Keys * all;
    hide Pruned, Backups;
  }

  /** A rollback fails when the directory cannot be listed, there is no backup, or the replacement fails; otherwise it
      leaves in the file what is read of the backup that sorts last, and every other file as it was. */
  lemma RollbackAnswerIff(f: Format, dir: Directory, base: string, w: World)
    requires w.temporary !in dir && w.temporary != base
    ensures forall n :: n in Backups(dir, base) <==> n in dir && base + ".bak." <= n
    ensures var (after, r) := Rollback(f, dir, base, w);
            if !w.lists then after == dir && r == Err(ListFailed)
            else if Backups(dir, base) == {} then after == dir && r == Err(NoBackups)
            else
              var latest := Greatest(Backups(dir, base));
              if w.replacing != Replaced
              then r == Err(WriteFailed) && forall n <- dir :: n in after && after[n] == dir[n]
              else latest in dir && r == Ok(latest) && after == dir[base := f.encode(f.decode(dir[latest]))]
  {
    assert forall d: Directory :: w.temporary !in d ==> d - {w.temporary} == d;
  }

  /** A backup is named after its file and the time. */
  lemma BackupIsNamed(base: string, now: nat)
    ensures BackupName(base, now) == base + ".bak." + Decimal(now)
    ensures Prefix(base) <= BackupName(base, now)
  {
  }
}
