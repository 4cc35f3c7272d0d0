/** Two-phase restore of the sources published by a failed update. */
module UpdateRecovery {
  import opened Outcomes
  import opened Interferences

  /** Path components below the system's `opt` directory. */
  type Path = seq<string>

  datatype File = File(content: string, mode: int, uid: int, gid: int, plain: bool)

  datatype Row = Row(backup: Path, uid: int, gid: int, mode: int, sha256: string)

  datatype Entry = Entry(oldDigest: string, newDigest: string)

  datatype Receipt = Receipt(operation: string, failureAt: string, phase: string, manifest: string,
                             published: seq<Path>, originals: map<Path, Row>)

  /** The manifest's file entries and the digest of the manifest file. */
  datatype Manifest = Manifest(files: map<Path, Entry>, digest: string)

  const ROOT: Path := ["fakenet-ng"]

  /** The two restorable sources, in sorted order. */
  const NAMES: seq<Path> := [["fakenet", "diverters", "linuxnetpolicy.py"], ["fakenet", "mcp", "linuxrunner.py"]]

  /** How one replacement went; every failure raises. */
  datatype WriteIo = Done | OpenFails | WriteFails(partial: string) | ReplaceFails | SyncFails

  /** The surroundings: answers of the quiescence probe, outcomes of the writes, the digest, and the
      identity that new files get. */
  datatype Surroundings = Surroundings(quiet: nat -> bool, io: nat -> WriteIo, sha256: string -> string, uid: int,
                                       gid: int)

  datatype RecoveryError = ReceiptRefused | NotQuiescent | Drifted | ChangedBeforeRestore | StagingFailed | SyncFailed
                         | RestoredDiffers | ReceiptChanged | Vanished

  function TargetOf(name: Path): Path {
    ROOT + name
  }

  /** The staging file beside the target. */
  function StagingOf(name: Path, operation: string): Path
    requires name != []
  {
    var last := |name| - 1;
    ROOT + name[..last] + ["." + name[last] + ".owned-restore-" + operation]
  }

  predicate IsWithin(base: Path, p: Path) {
    base <= p
  }

  predicate WordCharacter(c: char) {
    ('A' <= c <= 'Z') || ('a' <= c <= 'z') || ('0' <= c <= '9') || c == '-'
  }

  predicate ValidOperation(operation: string) {
    8 <= |operation| <= 80 && forall i :: 0 <= i < |operation| ==> WordCharacter(operation[i])
  }

  /** Identity and published set of the failed update. */
  ghost predicate ReceiptFits(receiptPath: Path, receipt: Receipt, manifest: Manifest) {
    && ValidOperation(receipt.operation)
    && |receiptPath| >= 2 && receiptPath[|receiptPath| - 2] == ".fakenet-update-" + receipt.operation
    && receipt.failureAt == "published" && receipt.phase == "failed"
    && receipt.manifest == manifest.digest
    && manifest.files.Keys == {NAMES[0], NAMES[1]}
    && receipt.originals.Keys == {NAMES[0], NAMES[1]}
    && (receipt.published == NAMES || receipt.published == [NAMES[1], NAMES[0]])
  }

  /** A verified backup and a target that holds one of the two known contents. */
  predicate Restorable(files: map<Path, File>, receiptPath: Path, receipt: Receipt, manifest: Manifest,
                       sha256: string -> string, name: Path)
    requires |receiptPath| >= 1 && name in receipt.originals && name in manifest.files
  {
    var row, entry, target := receipt.originals[name], manifest.files[name], TargetOf(name);
    && IsWithin(receiptPath[..|receiptPath| - 1] + ["originals"], row.backup)
    && row.backup in files && files[row.backup].plain
    && target in files && files[target].plain
    && files[target].uid == row.uid && files[target].gid == row.gid && files[target].mode == row.mode
    && sha256(files[row.backup].content) == row.sha256 == entry.oldDigest
    && sha256(files[target].content) in {entry.oldDigest, entry.newDigest}
  }

  ghost predicate Eligible(files: map<Path, File>, receiptPath: Path, receipt: Receipt, manifest: Manifest,
                           s: Surroundings) {
    && receiptPath in files && files[receiptPath].plain
    && ReceiptFits(receiptPath, receipt, manifest)
    && s.quiet(0)
    && forall name :: name in NAMES ==> Restorable(files, receiptPath, receipt, manifest, s.sha256, name)
  }

  // ---------------------------------------------------------------- paths that cannot meet

  /** A component that only update directories carry. */
  predicate Marked(p: Path) {
    exists i :: 0 <= i < |p| && |p[i]| >= 2 && p[i][0] == '.' && p[i][1] == 'f'
  }

  lemma UpdatePathsMarked(receiptPath: Path, receipt: Receipt, p: Path)
    requires |receiptPath| >= 2 && receiptPath[|receiptPath| - 2] == ".fakenet-update-" + receipt.operation
    requires p == receiptPath || IsWithin(receiptPath[..|receiptPath| - 1] + ["originals"], p)
    ensures Marked(p)
  {
    var i := |receiptPath| - 2;
    var base := receiptPath[..|receiptPath| - 1] + ["originals"];
    assert base[i] == receiptPath[i];
    assert p[i] == receiptPath[i];
    assert (".fakenet-update-" + receipt.operation)[0] == '.' && (".fakenet-update-" + receipt.operation)[1] == 'f';
  }

  lemma TargetsUnmarked(name: Path, operation: string)
    requires name in NAMES
    ensures !Marked(TargetOf(name)) && !Marked(StagingOf(name, operation))
  {
    assert TargetOf(NAMES[0]) == ["fakenet-ng", "fakenet", "diverters", "linuxnetpolicy.py"];
    assert TargetOf(NAMES[1]) == ["fakenet-ng", "fakenet", "mcp", "linuxrunner.py"];
    var staging := StagingOf(name, operation);
    assert name[2][0] == 'l' && name[..2] == [name[0], name[1]];
    assert staging == ["fakenet-ng", name[0], name[1], "." + name[2] + ".owned-restore-" + operation];
    assert staging[3][1] == name[2][0];
    assert name[0][0] == 'f' && (name[1][0] == 'd' || name[1][0] == 'm');
  }

  /** Each source is staged beside itself, under a hidden name that no other restore uses. */
  lemma StagedBeside(name: Path, directory: string, file: string, operation: string)
    requires name == ["fakenet", directory, file]
    ensures StagingOf(name, operation)
         == ["fakenet-ng", "fakenet", directory, "." + file + ".owned-restore-" + operation]
  {
    assert name[..2] == ["fakenet", directory];
  }

  lemma PathsApart(operation: string)
    ensures TargetOf(NAMES[0]) != TargetOf(NAMES[1])
    ensures forall i, j :: 0 <= i < 2 && 0 <= j < 2 ==> StagingOf(NAMES[i], operation) != TargetOf(NAMES[j])
    ensures StagingOf(NAMES[0], operation) != StagingOf(NAMES[1], operation)
  {
    assert TargetOf(NAMES[0])[2] == "diverters" && TargetOf(NAMES[1])[2] == "mcp";
    assert StagingOf(NAMES[0], operation)[2] == "diverters" && StagingOf(NAMES[1], operation)[2] == "mcp";
    assert StagingOf(NAMES[0], operation)[3][0] == '.' && StagingOf(NAMES[1], operation)[3][0] == '.';
    assert TargetOf(NAMES[0])[3][0] == 'l' && TargetOf(NAMES[1])[3][0] == 'l';
  }

  // ---------------------------------------------------------------- the state between writes

  function Backup(files: map<Path, File>, receipt: Receipt, name: Path): File
    requires name in receipt.originals && receipt.originals[name].backup in files
  {
    files[receipt.originals[name].backup]
  }

  /** The restored target: verified backup bytes under the recorded mode. */
  function RestoredFile(files: map<Path, File>, receipt: Receipt, s: Surroundings, name: Path): File
    requires name in receipt.originals && receipt.originals[name].backup in files
  {
    File(Backup(files, receipt, name).content, receipt.originals[name].mode, s.uid, s.gid, true)
  }

  ghost predicate Rows(before: map<Path, File>, receipt: Receipt) {
    forall i :: 0 <= i < 2 ==>
      NAMES[i] in receipt.originals && receipt.originals[NAMES[i]].backup in before && TargetOf(NAMES[i]) in before
  }

  type Others = Interference<Path, File>

  /** The target and its backup are left alone. */
  ghost predicate Tame(others: Others, receipt: Receipt, i: nat)
    requires i < 2 && NAMES[i] in receipt.originals
  {
    Leaves(others, TargetOf(NAMES[i])) && Leaves(others, receipt.originals[NAMES[i]].backup)
  }

  /** Of all that others leave alone: the first k targets hold their backups, the others what they held
      before, and no other path has changed, except perhaps `extra`. */
  ghost predicate RestoredUpTo(before: map<Path, File>, after: map<Path, File>, receipt: Receipt, s: Surroundings,
                               others: Others, k: nat, extra: Option<Path>)
    requires Rows(before, receipt) && k <= 2
  {
    && (forall i :: 0 <= i < k && Tame(others, receipt, i) ==>
          TargetOf(NAMES[i]) in after && after[TargetOf(NAMES[i])] == RestoredFile(before, receipt, s, NAMES[i]))
    && (forall i :: k <= i < 2 && Leaves(others, TargetOf(NAMES[i])) ==>
          TargetOf(NAMES[i]) in after && after[TargetOf(NAMES[i])] == before[TargetOf(NAMES[i])])
    && (forall p :: p != TargetOf(NAMES[0]) && p != TargetOf(NAMES[1]) && extra != Some(p) && Leaves(others, p) ==>
          && (p in after <==> p in before)
          && (p in before ==> after[p] == before[p]))
  }

  /** Others stay away from everything that the restore reads or writes. */
  ghost predicate Unhindered(others: Others, receiptPath: Path, receipt: Receipt) {
    && Leaves(others, receiptPath)
    && forall i :: 0 <= i < 2 ==>
         NAMES[i] in receipt.originals && NAMES[i] != [] && Tame(others, receipt, i)
         && Leaves(others, StagingOf(NAMES[i], receipt.operation))
  }

  datatype Restored = Restored(name: Path, sha256: string, mode: int, backup: Path)

  class InstalledFiles {
    var files: map<Path, File>

    constructor (files: map<Path, File>)
      ensures this.files == files
    {
      this.files := files;
    }

    /** Everything checked before the first write. */
    method CheckReceipt(receiptPath: Path, receipt: Receipt, manifest: Manifest) returns (fits: bool)
      ensures fits <==> ReceiptFits(receiptPath, receipt, manifest)
      ensures fits ==>
                && 8 <= |receipt.operation| <= 80 && receipt.failureAt == "published" && receipt.phase == "failed"
                && |receiptPath| >= 2 && receiptPath[|receiptPath| - 2] == ".fakenet-update-" + receipt.operation
                && receipt.manifest == manifest.digest
                && receipt.originals.Keys == manifest.files.Keys
                && manifest.files.Keys
                    == {["fakenet", "diverters", "linuxnetpolicy.py"], ["fakenet", "mcp", "linuxrunner.py"]}
                && |receipt.published| == 2 && (forall name :: name in receipt.published <==> name in manifest.files)
    {
      var names := {NAMES[0], NAMES[1]};
      fits :=
        && ValidOperation(receipt.operation)
        && |receiptPath| >= 2 && receiptPath[|receiptPath| - 2] == ".fakenet-update-" + receipt.operation
        && receipt.failureAt == "published" && receipt.phase == "failed"
        && receipt.manifest == manifest.digest
        && manifest.files.Keys == names
        && (set p | p in receipt.published) == names
        && |receipt.published| == 2
        && receipt.originals.Keys == names;
      PublishedSet(receipt.published);
    }

    /** Replaces one target through its staging file. */
    method Replace(name: Path, row: Row, operation: string, io: WriteIo, s: Surroundings)
      returns (r: Result<(), RecoveryError>)
      requires name in NAMES
      modifies this
      ensures r.Ok? || r.error == SyncFailed ==>
                && StagingOf(name, operation) !in old(files) && row.backup in old(files)
                && files == (old(files) - {StagingOf(name, operation)})
                            [TargetOf(name) := File(old(files)[row.backup].content, row.mode, s.uid, s.gid, true)]
      ensures r.Ok? <==> io == Done && StagingOf(name, operation) !in old(files) && row.backup in old(files)
      ensures r.Err? && r.error == SyncFailed ==> io == SyncFails
      ensures r.Err? && r.error != SyncFailed ==>
                && r.error == StagingFailed
                && forall p :: p != StagingOf(name, operation) ==>
                     && (p in files <==> p in old(files))
                     && (p in files ==> files[p] == old(files)[p])
    {
      var staging := StagingOf(name, operation);
      if staging in files || io == OpenFails {
        return Err(StagingFailed);
      }
      if io.WriteFails? || row.backup !in files {
        files := files[staging := File(if io.WriteFails? then io.partial else "", row.mode, s.uid, s.gid, true)];
        return Err(StagingFailed);
      }
      files := files[staging := File(files[row.backup].content, row.mode, s.uid, s.gid, true)];
      if io == ReplaceFails {
        return Err(StagingFailed);
      }
      StagingIsNotTarget(name, operation);
      var staged := files[staging];
      files := (files - {staging})[TargetOf(name) := staged];
      if io == SyncFails {
        return Err(SyncFailed);
      }
      return Ok(());
    }

    /** Phase one: every check, no write. */
    method CheckAll(receiptPath: Path, receipt: Receipt, manifest: Manifest, s: Surroundings)
      returns (r: Result<seq<string>, RecoveryError>)
      ensures r.Ok? <==> Eligible(files, receiptPath, receipt, manifest, s)
      ensures r.Err? ==> r.error in {ReceiptRefused, NotQuiescent, Drifted}
      ensures r.Ok? ==> Observed(files, s, r.value)
    {
      if receiptPath !in files || !files[receiptPath].plain {
        return Err(ReceiptRefused);
      }
      var fits := CheckReceipt(receiptPath, receipt, manifest);
      if !fits {
        return Err(ReceiptRefused);
      }
      if !s.quiet(0) {
        return Err(NotQuiescent);
      }
      var pending: seq<string> := [];
      for i := 0 to 2
        invariant |pending| == i
        invariant forall k :: 0 <= k < i ==> Restorable(files, receiptPath, receipt, manifest, s.sha256, NAMES[k])
        invariant forall k :: 0 <= k < i ==> TargetOf(NAMES[k]) in files
        invariant forall k :: 0 <= k < i ==> pending[k] == s.sha256(files[TargetOf(NAMES[k])].content)
      {
        if !Restorable(files, receiptPath, receipt, manifest, s.sha256, NAMES[i]) {
          assert NAMES[i] in NAMES;
          return Err(Drifted);
        }
        pending := pending + [s.sha256(files[TargetOf(NAMES[i])].content)];
      }
      return Ok(pending);
    }

    /** One target: check it again, replace it, read it back. */
    method RestoreOne(i: nat, observed: string, row: Row, operation: string, s: Surroundings, others: Others)
      returns (r: Result<Restored, RecoveryError>, replaced: bool, ghost seen: map<Path, File>)
      requires i < 2 && NAMES[i] in NAMES
      modifies this
      ensures seen == others(3 * i, old(files)) || seen == others(3 * i + 1, others(3 * i, old(files)))
      ensures replaced ==>
                && StagingOf(NAMES[i], operation) !in seen && row.backup in seen
                && var written := (seen - {StagingOf(NAMES[i], operation)})
                                  [TargetOf(NAMES[i]) := File(seen[row.backup].content, row.mode, s.uid, s.gid, true)];
                   files == written || files == others(3 * i + 2, written)
      ensures !replaced ==> r.Err? && r.error in {ChangedBeforeRestore, Vanished, StagingFailed}
      ensures !replaced && r.error != StagingFailed ==> files == seen
      ensures !replaced && r.error == Vanished ==> TargetOf(NAMES[i]) !in seen
      ensures !replaced && r.error == StagingFailed ==>
                forall p :: p != StagingOf(NAMES[i], operation) ==>
                  (p in files <==> p in seen) && (p in files ==> files[p] == seen[p])
      ensures r.Ok? ==>
                replaced && r.value.name == NAMES[i] && r.value.sha256 == row.sha256 && r.value.backup == row.backup
      ensures r.Ok? ==> TargetOf(NAMES[i]) in files && r.value.mode == files[TargetOf(NAMES[i])].mode
      ensures r.Ok? ==> s.quiet(i + 1) && s.io(i) == Done
      ensures r.Err? && replaced && r.error != SyncFailed ==>
                && r.error in {RestoredDiffers, Vanished}
                && (TargetOf(NAMES[i]) in files ==> s.sha256(files[TargetOf(NAMES[i])].content) != row.sha256)
      ensures r.Err? && replaced && r.error == SyncFailed ==> s.io(i) == SyncFails
      ensures r.Err? && !replaced ==>
                || !s.quiet(i + 1) || s.io(i) != Done || StagingOf(NAMES[i], operation) in seen || row.backup !in seen
                || TargetOf(NAMES[i]) !in seen || s.sha256(seen[TargetOf(NAMES[i])].content) != observed
    {
      var name := NAMES[i];
      files := others(3 * i, files);
      seen := files;
      if !s.quiet(i + 1) {
        return Err(ChangedBeforeRestore), false, seen;
      }
      if TargetOf(name) !in files {
        return Err(Vanished), false, seen;
      }
      if s.sha256(files[TargetOf(name)].content) != observed {
        return Err(ChangedBeforeRestore), false, seen;
      }
      files := others(3 * i + 1, files);
      seen := files;
      hide TargetOf, StagingOf;
      var written := Replace(name, row, operation, s.io(i), s);
      if written.Err? {
        return Err(written.error), written.error == SyncFailed, seen;
      }
      files := others(3 * i + 2, files);
      if TargetOf(name) !in files {
        return Err(Vanished), true, seen;
      }
      if s.sha256(files[TargetOf(name)].content) != row.sha256 {
        return Err(RestoredDiffers), true, seen;
      }
      r := Ok(Restored(name, s.sha256(files[TargetOf(name)].content), files[TargetOf(name)].mode, row.backup));
      replaced := true;
    }

    /** Phase two: one target after the other, while others interfere. */
    method RestoreAll(pending: seq<string>, receiptPath: Path, receipt: Receipt, manifest: Manifest, s: Surroundings,
                      others: Others)
      returns (r: Result<seq<Restored>, RecoveryError>, done: nat)
      requires Eligible(files, receiptPath, receipt, manifest, s) && Observed(files, s, pending)
      modifies this
      ensures Rows(old(files), receipt) && done <= 2
      ensures r.Err? ==> r.error in {ChangedBeforeRestore, Vanished, StagingFailed, SyncFailed, RestoredDiffers}
      ensures r.Err? && r.error == StagingFailed ==> done < 2
      ensures RestoredUpTo(old(files), files, receipt, s, others, done,
                if r.Err? && r.error == StagingFailed then Some(StagingOf(NAMES[done], receipt.operation)) else None)
      ensures Unhindered(others, receiptPath, receipt) ==>
                (r.Ok? <==> forall i :: 0 <= i < 2 ==> StepGoes(old(files), receipt, s, i))
      ensures Unhindered(others, receiptPath, receipt) && r.Err? ==> r.error !in {Vanished, RestoredDiffers}
      ensures r.Ok? ==> done == 2 && AsReported(receipt, r.value)
      ensures r.Ok? && Unhindered(others, receiptPath, receipt) ==>
                forall i :: 0 <= i < 2 ==> r.value[i].mode == receipt.originals[NAMES[i]].mode
    {
      hide *;
      TwoNames();
      ghost var before := files;
      EligibleApart(before, receiptPath, receipt, manifest, s, others);
      ObservedTwo(before, s, pending);
      var restored: seq<Restored> := [];
      NoneReported(receipt);
      done := 0;
      while done < 2
        invariant done <= 2 && Rows(before, receipt)
        invariant RestoredUpTo(before, files, receipt, s, others, done, None)
        invariant |restored| == done && Reported(receipt, restored)
        invariant Unhindered(others, receiptPath, receipt) ==>
                    forall i :: 0 <= i < done ==>
                      StepGoes(before, receipt, s, i) && restored[i].mode == receipt.originals[NAMES[i]].mode
        decreases 2 - done
      {
        RowOf(before, receipt, done);
        ghost var was := files;
        var row := receipt.originals[NAMES[done]];
        var one, replaced;
        ghost var seen;
        one, replaced, seen := RestoreOne(done, pending[done], row, receipt.operation, s, others);
        Interfered(before, was, receipt, s, others, done, 3 * done);
        Interfered(before, others(3 * done, was), receipt, s, others, done, 3 * done + 1);
        assert RestoredUpTo(before, seen, receipt, s, others, done, None);
        StepSeen(before, seen, receiptPath, receipt, manifest, s, others, pending, done);
        if replaced {
          OneMore(before, seen, receiptPath, receipt, manifest, s, others, done);
          ghost var written := Written(seen, receipt, s, done);
          Interfered(before, written, receipt, s, others, done + 1, 3 * done + 2);
          TargetSeen(before, files, receiptPath, receipt, manifest, s, others, done);
          done := done + 1;
          if one.Err? {
            return Err(one.error), done;
          }
          OneReported(receipt, restored, one.value);
          restored := restored + [one.value];
        } else {
          if one.error == StagingFailed {
            Interrupted(before, seen, files, receipt, s, others, done);
          }
          return Err(one.error), done;
        }
      }
      BothReported(receipt, restored);
      return Ok(restored), done;
    }

    method RecoverPublishedUpdate(receiptPath: Path, receipt: Receipt, manifest: Manifest, s: Surroundings,
                                  others: Others)
      returns (r: Result<seq<Restored>, RecoveryError>, done: nat)
      modifies this
      ensures Eligible(old(files), receiptPath, receipt, manifest, s) <==>
                !(r.Err? && r.error in {ReceiptRefused, NotQuiescent, Drifted})
      ensures !Eligible(old(files), receiptPath, receipt, manifest, s) ==> files == old(files) && done == 0
      ensures Eligible(old(files), receiptPath, receipt, manifest, s) ==>
                && Rows(old(files), receipt) && done <= 2
                && (r.Err? && r.error == StagingFailed ==> done < 2)
                && RestoredUpTo(old(files), files, receipt, s, others, done,
                     if r.Err? && r.error == StagingFailed
                         then Some(StagingOf(NAMES[done], receipt.operation)) else None)
      ensures r.Ok? ==>
                && Eligible(old(files), receiptPath, receipt, manifest, s) && done == 2
                && AsReported(receipt, r.value)
                && receiptPath in files && receiptPath in old(files)
                && s.sha256(files[receiptPath].content) == s.sha256(old(files)[receiptPath].content)
      ensures Unhindered(others, receiptPath, receipt) ==>
                && (r.Ok? <==>
                      && Eligible(old(files), receiptPath, receipt, manifest, s)
                      && forall i :: 0 <= i < 2 ==> StepGoes(old(files), receipt, s, i))
                && (r.Ok? ==> FullyRestored(old(files), files, receiptPath, receipt, manifest, s, r.value))
                && (r.Err? ==> r.error !in {Vanished, RestoredDiffers, ReceiptChanged})
    {
      var checked := CheckAll(receiptPath, receipt, manifest, s);
      if checked.Err? {
        return Err(checked.error), 0;
      }
      hide *;
      ghost var before := files;
      EligibleApart(before, receiptPath, receipt, manifest, s, others);
      var receiptDigest := s.sha256(files[receiptPath].content);
      r, done := RestoreAll(checked.value, receiptPath, receipt, manifest, s, others);
      if r.Err? {
        return;
      }
      Interfered(before, files, receipt, s, others, 2, 6);
      files := others(6, files);
      ReceiptSeen(before, files, receiptPath, receipt, manifest, s, others);
      if receiptPath !in files {
        r := Err(Vanished);
      } else if s.sha256(files[receiptPath].content) != receiptDigest {
        r := Err(ReceiptChanged);
      } else if Unhindered(others, receiptPath, receipt) {
        AllRestored(before, files, receiptPath, receipt, manifest, s, others, r.value);
      }
    }
  }

  /** What is reported for the first targets: their names, old digests and backups. */
  ghost predicate Reported(receipt: Receipt, restored: seq<Restored>) {
    && |restored| <= 2
    && forall i :: 0 <= i < |restored| ==>
         && NAMES[i] in receipt.originals && restored[i].name == NAMES[i]
         && restored[i].sha256 == receipt.originals[NAMES[i]].sha256
         && restored[i].backup == receipt.originals[NAMES[i]].backup
  }

  /** A complete report: whatever others did, each target read back with its old digest. */
  ghost predicate AsReported(receipt: Receipt, restored: seq<Restored>) {
    |restored| == 2 && Reported(receipt, restored)
  }

  lemma ObservedTwo(files: map<Path, File>, s: Surroundings, pending: seq<string>)
    requires Observed(files, s, pending)
    ensures |pending| == 2
  {
  }

  lemma NoneReported(receipt: Receipt)
    ensures Reported(receipt, [])
  {
  }

  lemma OneReported(receipt: Receipt, restored: seq<Restored>, one: Restored)
    requires Reported(receipt, restored) && |restored| < 2 && NAMES[|restored|] in receipt.originals
    requires one.name == NAMES[|restored|] && one.sha256 == receipt.originals[one.name].sha256
    requires one.backup == receipt.originals[one.name].backup
    ensures Reported(receipt, restored + [one])
  {
  }

  lemma BothReported(receipt: Receipt, restored: seq<Restored>)
    requires |restored| == 2 && Reported(receipt, restored)
    ensures AsReported(receipt, restored)
  {
  }

  /** The digests observed before the first write. */
  ghost predicate Observed(files: map<Path, File>, s: Surroundings, pending: seq<string>) {
    && |pending| == 2
    && forall k :: 0 <= k < 2 ==>
         TargetOf(NAMES[k]) in files && pending[k] == s.sha256(files[TargetOf(NAMES[k])].content)
  }

  /** Nothing stops the i-th replacement. */
  ghost predicate StepGoes(files: map<Path, File>, receipt: Receipt, s: Surroundings, i: nat)
    requires i < 2
  {
    s.quiet(i + 1) && s.io(i) == Done && StagingOf(NAMES[i], receipt.operation) !in files
  }

  /** Every target has its old bytes and recorded mode, as reported; the failed receipt is untouched. */
  ghost predicate FullyRestored(before: map<Path, File>, after: map<Path, File>, receiptPath: Path, receipt: Receipt,
                                manifest: Manifest, s: Surroundings, restored: seq<Restored>)
  {
    && receiptPath in after && receiptPath in before && after[receiptPath] == before[receiptPath]
    && |restored| == 2
    && forall i :: 0 <= i < 2 ==>
         && NAMES[i] in manifest.files && NAMES[i] in receipt.originals && TargetOf(NAMES[i]) in after
         && s.sha256(after[TargetOf(NAMES[i])].content) == manifest.files[NAMES[i]].oldDigest
         && after[TargetOf(NAMES[i])].mode == receipt.originals[NAMES[i]].mode
         && restored[i] == Restored(NAMES[i], manifest.files[NAMES[i]].oldDigest, receipt.originals[NAMES[i]].mode,
                                    receipt.originals[NAMES[i]].backup)
  }

  lemma TwoNames()
    ensures |NAMES| == 2
  {
  }

  lemma PublishedSet(published: seq<Path>)
    ensures (set p | p in published) == {NAMES[0], NAMES[1]} && |published| == 2
       <==> published == NAMES || published == [NAMES[1], NAMES[0]]
  {
    PathsApart("");
    assert NAMES[0] != NAMES[1];
    var names := set p | p in published;
    if names == {NAMES[0], NAMES[1]} && |published| == 2 {
      assert published[0] in names && published[1] in names;
      assert NAMES[0] in published && NAMES[1] in published;
    }
  }

  lemma StagingIsNotTarget(name: Path, operation: string)
    requires name in NAMES
    ensures StagingOf(name, operation) != TargetOf(name)
  {
    PathsApart(operation);
  }

  /** What exactly the checks before the first write ask for: a plain receipt that fits, a quiet system, and for each
      source a plain backup inside the update's own directory with the recorded and released digest, and a plain target
      with the recorded owner and mode that holds the released or the failed update's bytes. */
  lemma EligibleMeans(files: map<Path, File>, receiptPath: Path, receipt: Receipt, manifest: Manifest, s: Surroundings)
    requires ReceiptFits(receiptPath, receipt, manifest)
    ensures Eligible(files, receiptPath, receipt, manifest, s) <==>
              && receiptPath in files && files[receiptPath].plain && s.quiet(0)
              && forall name :: name in manifest.files ==>
                   && name in receipt.originals
                   && var row, entry, target := receipt.originals[name], manifest.files[name], ["fakenet-ng"] + name;
                   && receiptPath[..|receiptPath| - 1] + ["originals"] <= row.backup
                   && row.backup in files && files[row.backup].plain && target in files && files[target].plain
                   && files[target].uid == row.uid && files[target].gid == row.gid && files[target].mode == row.mode
                   && s.sha256(files[row.backup].content) == row.sha256 && row.sha256 == entry.oldDigest
                   && (|| s.sha256(files[target].content) == entry.oldDigest
                       || s.sha256(files[target].content) == entry.newDigest)
  {
    assert forall name :: name in manifest.files.Keys <==> name in NAMES;
  }

  /** Backups and the receipt are none of the paths the restore writes to. */
  lemma EligibleApart(files: map<Path, File>, receiptPath: Path, receipt: Receipt, manifest: Manifest, s: Surroundings,
                      others: Others)
    requires Eligible(files, receiptPath, receipt, manifest, s)
    ensures Rows(files, receipt) && RestoredUpTo(files, files, receipt, s, others, 0, None)
    ensures receiptPath in files
  {
    assert NAMES[0] in NAMES && NAMES[1] in NAMES;
    assert Restorable(files, receiptPath, receipt, manifest, s.sha256, NAMES[0]);
    assert Restorable(files, receiptPath, receipt, manifest, s.sha256, NAMES[1]);
  }

  /** A path that the restore never writes to. */
  ghost predicate Untouchable(p: Path, operation: string) {
    forall i :: 0 <= i < 2 ==> p != TargetOf(NAMES[i]) && p != StagingOf(NAMES[i], operation)
  }

  lemma MarkedUntouchable(p: Path, operation: string)
    requires Marked(p)
    ensures Untouchable(p, operation)
  {
    hide Marked, TargetOf, StagingOf;
    assert NAMES[0] in NAMES && NAMES[1] in NAMES;
    TargetsUnmarked(NAMES[0], operation);
    TargetsUnmarked(NAMES[1], operation);
  }

  lemma BackupUntouchable(files: map<Path, File>, receiptPath: Path, receipt: Receipt, manifest: Manifest,
                          s: Surroundings, k: nat)
    requires Eligible(files, receiptPath, receipt, manifest, s) && k < 2
    ensures NAMES[k] in receipt.originals
    ensures Untouchable(receipt.originals[NAMES[k]].backup, receipt.operation)
    ensures Untouchable(receiptPath, receipt.operation)
  {
    assert NAMES[k] in NAMES;
    assert Restorable(files, receiptPath, receipt, manifest, s.sha256, NAMES[k]);
    UpdatePathsMarked(receiptPath, receipt, receipt.originals[NAMES[k]].backup);
    UpdatePathsMarked(receiptPath, receipt, receiptPath);
    hide Marked, Untouchable;
    MarkedUntouchable(receipt.originals[NAMES[k]].backup, receipt.operation);
    MarkedUntouchable(receiptPath, receipt.operation);
  }

  lemma RowOf(before: map<Path, File>, receipt: Receipt, k: nat)
    requires Rows(before, receipt) && k < 2
    ensures |NAMES| == 2 && NAMES[k] in NAMES && NAMES[k] in receipt.originals && NAMES[k] != []
  {
  }

  /** Others change nothing that they leave alone. */
  lemma Interfered(before: map<Path, File>, mid: map<Path, File>, receipt: Receipt, s: Surroundings, others: Others,
                   k: nat, n: nat)
    requires Rows(before, receipt) && k <= 2 && RestoredUpTo(before, mid, receipt, s, others, k, None)
    ensures RestoredUpTo(before, others(n, mid), receipt, s, others, k, None)
  {
    hide TargetOf, RestoredFile;
  }

  /** What a step meets when nobody hinders it. */
  lemma StepSeen(before: map<Path, File>, mid: map<Path, File>, receiptPath: Path, receipt: Receipt, manifest: Manifest,
                 s: Surroundings, others: Others, pending: seq<string>, k: nat)
    requires Observed(before, s, pending)
    requires Eligible(before, receiptPath, receipt, manifest, s) && Rows(before, receipt)
    requires k < 2 && RestoredUpTo(before, mid, receipt, s, others, k, None)
    ensures |NAMES| == 2 && |pending| == 2 && NAMES[k] != [] && NAMES[k] in receipt.originals
    ensures Unhindered(others, receiptPath, receipt) ==>
              && receipt.originals[NAMES[k]].backup in mid && TargetOf(NAMES[k]) in mid
              && s.sha256(mid[TargetOf(NAMES[k])].content) == pending[k]
              && (StagingOf(NAMES[k], receipt.operation) in mid <==> StagingOf(NAMES[k], receipt.operation) in before)
    ensures StepGoes(before, receipt, s, k) <==>
              s.quiet(k + 1) && s.io(k) == Done && StagingOf(NAMES[k], receipt.operation) !in before
  {
    BackupUntouchable(before, receiptPath, receipt, manifest, s, k);
    PathsApart(receipt.operation);
    hide TargetOf, StagingOf, Eligible, RestoredFile, Leaves;
  }

  /** The files right after the k-th replacement. */
  ghost function Written(seen: map<Path, File>, receipt: Receipt, s: Surroundings, k: nat): map<Path, File>
    requires k < 2 && NAMES[k] in receipt.originals && NAMES[k] != [] && receipt.originals[NAMES[k]].backup in seen
  {
    (seen - {StagingOf(NAMES[k], receipt.operation)})
      [TargetOf(NAMES[k]) := File(seen[receipt.originals[NAMES[k]].backup].content, receipt.originals[NAMES[k]].mode,
                                  s.uid, s.gid, true)]
  }

  lemma OneMore(before: map<Path, File>, mid: map<Path, File>, receiptPath: Path, receipt: Receipt, manifest: Manifest,
                s: Surroundings, others: Others, k: nat)
    requires Eligible(before, receiptPath, receipt, manifest, s) && Rows(before, receipt)
    requires k < 2 && RestoredUpTo(before, mid, receipt, s, others, k, None)
    requires NAMES[k] in receipt.originals && NAMES[k] != [] && receipt.originals[NAMES[k]].backup in mid
    requires StagingOf(NAMES[k], receipt.operation) !in mid
    ensures RestoredUpTo(before, Written(mid, receipt, s, k), receipt, s, others, k + 1, None)
    ensures Written(mid, receipt, s, k)
         == (mid - {StagingOf(NAMES[k], receipt.operation)})
            [TargetOf(NAMES[k]) :=
             File(mid[receipt.originals[NAMES[k]].backup].content, receipt.originals[NAMES[k]].mode,
                                        s.uid, s.gid, true)]
  {
    hide *;
    RowOf(before, receipt, k);
    BackupKept(before, mid, receiptPath, receipt, manifest, s, others, k);
    OthersKept(before, mid, receipt, s, others, k);
    WrittenMeans(mid, receipt, s, k);
  }

  lemma WrittenMeans(seen: map<Path, File>, receipt: Receipt, s: Surroundings, k: nat)
    requires k < 2 && NAMES[k] in receipt.originals && NAMES[k] != [] && receipt.originals[NAMES[k]].backup in seen
    ensures Written(seen, receipt, s, k)
         == (seen - {StagingOf(NAMES[k], receipt.operation)})
            [TargetOf(NAMES[k]) :=
             File(seen[receipt.originals[NAMES[k]].backup].content, receipt.originals[NAMES[k]].mode,
                                        s.uid, s.gid, true)]
  {
  }

  /** A backup that others leave alone still holds what was verified. */
  lemma BackupKept(before: map<Path, File>, mid: map<Path, File>, receiptPath: Path, receipt: Receipt,
                   manifest: Manifest,
                   s: Surroundings, others: Others, k: nat)
    requires Eligible(before, receiptPath, receipt, manifest, s) && Rows(before, receipt)
    requires k < 2 && RestoredUpTo(before, mid, receipt, s, others, k, None)
    ensures NAMES[k] in receipt.originals && receipt.originals[NAMES[k]].backup in before
    ensures Leaves(others, receipt.originals[NAMES[k]].backup) ==>
              && receipt.originals[NAMES[k]].backup in mid
              && mid[receipt.originals[NAMES[k]].backup] == before[receipt.originals[NAMES[k]].backup]
  {
    BackupUntouchable(before, receiptPath, receipt, manifest, s, k);
    hide TargetOf, StagingOf, Eligible, Leaves, RestoredFile;
  }

  lemma OthersKept(before: map<Path, File>, mid: map<Path, File>, receipt: Receipt, s: Surroundings, others: Others,
                   k: nat)
    requires Rows(before, receipt) && k < 2 && RestoredUpTo(before, mid, receipt, s, others, k, None)
    requires NAMES[k] in receipt.originals && NAMES[k] != [] && receipt.originals[NAMES[k]].backup in mid
    requires StagingOf(NAMES[k], receipt.operation) !in mid
    requires Leaves(others, receipt.originals[NAMES[k]].backup) ==>
               mid[receipt.originals[NAMES[k]].backup] == before[receipt.originals[NAMES[k]].backup]
    ensures RestoredUpTo(before, Written(mid, receipt, s, k), receipt, s, others, k + 1, None)
  {
    PathsApart(receipt.operation);
    hide TargetOf, StagingOf, Leaves;
    var after := Written(mid, receipt, s, k);
    forall p | p != TargetOf(NAMES[k]) && p != StagingOf(NAMES[k], receipt.operation)
      ensures (p in after <==> p in mid) && (p in after ==> after[p] == mid[p])
    {
    }
    assert after[TargetOf(NAMES[k])]
        == File(mid[receipt.originals[NAMES[k]].backup].content, receipt.originals[NAMES[k]].mode,
                                             s.uid, s.gid, true);
    hide Written;
  }

  /** Unhindered, the k-th target reads back as its verified backup under the recorded mode. */
  lemma TargetSeen(before: map<Path, File>, after: map<Path, File>, receiptPath: Path, receipt: Receipt,
                   manifest: Manifest,
                   s: Surroundings, others: Others, k: nat)
    requires Eligible(before, receiptPath, receipt, manifest, s) && Rows(before, receipt)
    requires k < 2 && RestoredUpTo(before, after, receipt, s, others, k + 1, None)
    ensures NAMES[k] in receipt.originals
    ensures Unhindered(others, receiptPath, receipt) ==>
              && TargetOf(NAMES[k]) in after
              && s.sha256(after[TargetOf(NAMES[k])].content) == receipt.originals[NAMES[k]].sha256
              && after[TargetOf(NAMES[k])].mode == receipt.originals[NAMES[k]].mode
  {
    assert NAMES[k] in NAMES;
    assert Restorable(before, receiptPath, receipt, manifest, s.sha256, NAMES[k]);
    hide TargetOf, StagingOf, Eligible, Leaves;
  }

  lemma ReceiptSeen(before: map<Path, File>, after: map<Path, File>, receiptPath: Path, receipt: Receipt,
                    manifest: Manifest,
                    s: Surroundings, others: Others)
    requires Eligible(before, receiptPath, receipt, manifest, s) && Rows(before, receipt)
    requires RestoredUpTo(before, after, receipt, s, others, 2, None)
    ensures Unhindered(others, receiptPath, receipt) ==>
              receiptPath in after && receiptPath in before && after[receiptPath] == before[receiptPath]
  {
    BackupUntouchable(before, receiptPath, receipt, manifest, s, 0);
    hide TargetOf, StagingOf, Leaves;
  }

  lemma Interrupted(before: map<Path, File>, mid: map<Path, File>, after: map<Path, File>, receipt: Receipt,
                    s: Surroundings, others: Others, k: nat)
    requires Rows(before, receipt)
    requires k < 2 && RestoredUpTo(before, mid, receipt, s, others, k, None) && NAMES[k] != []
    requires forall p :: p != StagingOf(NAMES[k], receipt.operation) ==>
               (p in after <==> p in mid) && (p in after ==> after[p] == mid[p])
    ensures RestoredUpTo(before, after, receipt, s, others, k, Some(StagingOf(NAMES[k], receipt.operation)))
  {
    PathsApart(receipt.operation);
    hide TargetOf, StagingOf, Leaves;
  }

  lemma AllRestored(before: map<Path, File>, after: map<Path, File>, receiptPath: Path, receipt: Receipt,
                    manifest: Manifest, s: Surroundings, others: Others, restored: seq<Restored>)
    requires Eligible(before, receiptPath, receipt, manifest, s) && Rows(before, receipt)
    requires Unhindered(others, receiptPath, receipt) && RestoredUpTo(before, after, receipt, s, others, 2, None)
    requires AsReported(receipt, restored)
    requires forall i :: 0 <= i < 2 ==> restored[i].mode == receipt.originals[NAMES[i]].mode
    ensures FullyRestored(before, after, receiptPath, receipt, manifest, s, restored)
  {
    forall i | 0 <= i < 2
      ensures Restorable(before, receiptPath, receipt, manifest, s.sha256, NAMES[i])
    {
      assert NAMES[i] in NAMES;
    }
    ReceiptSeen(before, after, receiptPath, receipt, manifest, s, others);
    TargetSeen(before, after, receiptPath, receipt, manifest, s, others, 1);
    assert NAMES[0] in NAMES;
    hide TargetOf, StagingOf, Leaves, Restorable;
  }
}
