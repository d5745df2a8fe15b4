/** The mutation phase of a sync commit, step by step: deletions, uploads with merges, normalisation, and rollback. */
module SyncCommit {
  import opened Options
  import opened SyncJournal
  import opened SyncRollback
  import opened SyncConvergence
  import opened SyncAnswers

  /** A commit that fails is rolled back; the paths whose restoring failed are reported. */
  datatype Result = Committed | RolledBackWith(failures: seq<string>)

  /** The paths of a request: deleted ones as given, uploaded ones without leading slashes. */
  function RequestOf(deleted: seq<string>, uploads: seq<Upload>): (r: Request)
    ensures r.deleted == deleted && |r.keys| == |uploads|
    ensures forall i :: 0 <= i < |uploads| ==> r.keys[i] == Stripped(uploads[i].name)
    ensures AreKeys(r)
  {
    Request(deleted, seq(|uploads|, i requires 0 <= i < |uploads| => Stripped(uploads[i].name)))
  }

  ghost predicate FailedAt(env: Env, failures: seq<string>, l: Loc) {
    exists key <- failures :: RestoreTarget(env.resolve, key) == Some(l)
  }

  /** The deletions that went through: each listed file is gone unless it is among those that could not be
      deleted, and no other file is. */
  ghost predicate AreDeleted(env: Env, before: Files, after: Files, deleted: seq<string>, undeleted: seq<string>) {
    && (forall path <- deleted :: Target(env.resolve, path).Some?
          && (path in undeleted || At(after, Target(env.resolve, path).value) == None))
    && (forall path <- undeleted :: path in deleted)
    && forall l :: At(after, l) == At(before, l) || (At(after, l) == None && IsListed(env, deleted, l))
  }

  ghost predicate IsListed(env: Env, deleted: seq<string>, l: Loc) {
    exists path <- deleted :: Target(env.resolve, path) == Some(l)
  }

  ghost predicate AreDistinct(paths: seq<string>) {
    forall i, j :: 0 <= i < j < |paths| ==> paths[i] != paths[j]
  }

  class Commit {
    const env: Env
    var files: Files
    var journal: seq<Saved>
    var conflicts: seq<Conflict>
    var toDownload: seq<string>
    var uploadedPaths: seq<string>
    var deletions: nat
    /** The posts that normalisation has rewritten, and those that it could not rewrite: the answer warns
        about the latter. */
    var rewritten: seq<string>
    var warned: seq<string>
    /** The files that could not be deleted: the answer warns about them, too. */
    var undeleted: seq<string>
    /** The steps taken so far. */
    ghost var steps: seq<Step>
    /** The files between deletions and uploads. */
    ghost var afterDeletions: Files

    constructor (env: Env, files: Files)
      ensures this.env == env && this.files == files && IsNew()
    {
      this.env, this.files := env, files;
      journal, conflicts, toDownload, uploadedPaths, deletions := [], [], [], [], 0;
      rewritten, warned, undeleted, steps, afterDeletions := [], [], [], [], files;
    }

    predicate IsNew()
      reads this
    {
      && journal == [] && conflicts == [] && toDownload == [] && uploadedPaths == []
      && rewritten == [] && warned == [] && undeleted == [] && deletions == 0
    }

    ghost function Now(): Trail
      reads this
    {
      Trail(files, journal)
    }

    ghost function Seen(): View
      reads this
    {
      View(files, conflicts, toDownload, uploadedPaths)
    }

    /** The steps taken are those of a run of the request, and they lead from the files at the start to now. */
    ghost predicate IsOnRun(r: Request, start: Files)
      reads this
    {
      IsRun(env.resolve, r, steps) && Now() == DoAll(env.resolve, Trail(start, []), steps)
    }

    /** Every path that was written has been journalled. */
    ghost predicate WrittenAreKept(r: Request)
      reads this
    {
      forall t <- uploadedPaths :: t in r.keys && env.resolve(t).Some? && HasKey(journal, t)
    }

    /** Every upload has converged, but for posts that the answer warns about. */
    ghost predicate HaveConverged(uploads: seq<Upload>, start: Files)
      reads this
    {
      forall u <- uploads :: Stripped(u.name) in warned || Converged(env, Seen(), u, start)
    }

    /** Saves the bytes of a file the first time its key is used; fails if they cannot be read. */
    method RememberOriginalFile(key: string, l: Loc) returns (ok: bool)
      modifies `journal
      ensures journal == if ok then Remember(old(Now()), key, l) else old(journal)
    {
      if HasKey(journal, key) {
        return true;
      }
      if l in files {
        var readable: bool := *;
        if !readable {
          return false;
        }
      }
      journal := journal + [Saved(key, At(files, l))];
      return true;
    }

    /** Writes a file. A write that fails may leave anything there. */
    method WriteFile(l: Loc, data: Bytes) returns (ok: bool)
      modifies `files
      ensures files == Put(old(files), l, At(files, l))
      ensures ok ==> files == old(files)[l := data]
    {
      ok := *;
      if ok {
        files := files[l := data];
      } else {
        var gone: bool := *;
        var left: Bytes := *;
        files := Put(files, l, if gone then None else Some(left));
      }
    }

    /** Unlinks a file, or warns that this has failed. */
    method Unlink(path: string, l: Loc) returns (gone: bool)
      requires l in files
      modifies `files, `deletions, `undeleted
      ensures files == if gone then old(files) - {l} else old(files)
      ensures undeleted == if gone then old(undeleted) else old(undeleted) + [path]
      ensures deletions + |files| == old(deletions + |files|)
    {
      gone := *;
      if gone {
        assert files.Keys - {l} == (files - {l}).Keys;
        files := files - {l};
        deletions := deletions + 1;
      } else {
        undeleted := undeleted + [path];
      }
    }

    /** Deletes one file. If it cannot be deleted, it is passed over. */
    method DeleteFile(path: string, ghost r: Request, ghost start: Files) returns (ok: bool)
      requires IsOnRun(r, start) && IsOngoing(r, steps) && |steps| < |r.deleted| && path == r.deleted[|steps|]
      modifies `files, `journal, `deletions, `undeleted, `steps
      ensures IsOnRun(r, start) && IsOngoing(r, steps) && |steps| == old(|steps|) + if ok then 1 else 0
      ensures ok ==> Target(env.resolve, path).Some?
      ensures forall l :: At(files, l) == At(old(files), l)
                || (At(files, l) == None && Target(env.resolve, path) == Some(l))
      ensures undeleted == old(undeleted) || undeleted == old(undeleted) + [path]
      ensures ok && undeleted == old(undeleted) ==> At(files, Target(env.resolve, path).value) == None
      ensures deletions + |files| == old(deletions + |files|)
    {
      var target := Target(env.resolve, path);
      if target.None? {
        return false;
      }
      var l := target.value;
      var gone := false;
      ghost var before := Now();
      if l in files {
        ok := RememberOriginalFile(path, l);
        if !ok {
          return false;
        }
        gone := Unlink(path, l);
      }
      ghost var step := Deletes(path, gone);
      assert Now() == Do(env.resolve, before, step);
      StepTaken(env.resolve, r, start, steps, step, before, Now(), steps + [step]);
      steps := steps + [step];
      return true;
    }

    /** Deletes the listed files. */
    method ApplyDeletions(deleted: seq<string>, ghost r: Request) returns (ok: bool)
      requires r.deleted == deleted && journal == []
      requires undeleted == [] && deletions == 0
      modifies `files, `journal, `deletions, `undeleted, `steps, `afterDeletions
      ensures IsOnRun(r, old(files)) && IsOngoing(r, steps) && |steps| <= |deleted| && (ok ==> |steps| == |deleted|)
      ensures ok ==> files == afterDeletions && AreDeleted(env, old(files), afterDeletions, deleted, undeleted)
      ensures deletions == |old(files)| - |files|
    {
      ghost var start := files;
      steps := [];
      for i := 0 to |deleted|
        invariant IsOnRun(r, start) && IsOngoing(r, steps) && |steps| == i
        invariant AreDeleted(env, start, files, deleted[..i], undeleted)
        invariant deletions == |start| - |files|
      {
        ghost var before, kept := files, undeleted;
        ok := DeleteFile(deleted[i], r, start);
        if ok {
          OneMoreDeleted(env, start, before, files, deleted, i, kept, undeleted);
        } else {
          return;
        }
      }
      assert deleted[..|deleted|] == deleted;
      afterDeletions := files;
      return true;
    }

    /** Reports the conflicts of a merge, writes its result, and tells the client to download it. */
    method WriteMerged(t: string, l: Loc, merged: Merge) returns (ok: bool)
      modifies `files, `conflicts, `toDownload, `uploadedPaths
      ensures files == Put(old(files), l, At(files, l)) && (ok ==> l in files)
      ensures uploadedPaths == if ok then old(uploadedPaths) + [t] else old(uploadedPaths)
      ensures ok ==> Seen() == View(old(files)[l := env.encode(merged.content)],
                                    old(conflicts) + Reported(t, WriteMerge(merged)),
                                    old(toDownload) + [t], old(uploadedPaths) + [t])
    {
      if merged.bodyConflicted || merged.fieldConflicts != [] {
        conflicts := conflicts + [Conflict(t, merged.bodyConflicted, merged.fieldConflicts)];
      }
      ok := WriteFile(l, env.encode(merged.content));
      if ok {
        toDownload := toDownload + [t];
        uploadedPaths := uploadedPaths + [t];
      }
    }

    /** Overwrites or merges the file of an upload whose original is saved. */
    method StoreUpload(u: Upload, t: string, l: Loc) returns (ok: bool)
      requires t == Stripped(u.name) && env.resolve(t) == Some(l)
      modifies `files, `conflicts, `toDownload, `uploadedPaths
      ensures files == Put(old(files), l, At(files, l)) && (ok ==> l in files)
      ensures uploadedPaths == old(uploadedPaths) || uploadedPaths == old(uploadedPaths) + [t]
      ensures ok ==> Seen() == Process(env, old(Seen()), u)
    {
      var serverContent: Option<Text> := None;
      if l in files {
        var readable: bool := *;
        if !readable {
          return false;
        }
        serverContent := env.readText(files[l]);
      }
      var clientText := env.decode(u.data);
      if clientText.None? {
        ok := WriteFile(l, u.data);
        if ok {
          uploadedPaths := uploadedPaths + [t];
        }
        return;
      }
      if serverContent.Some? && serverContent != clientText && env.isLabels(t) {
        ok := WriteMerged(t, l, OfLabels(env.mergeLabels(t, serverContent.value, clientText.value)));
      } else if serverContent.Some? && serverContent != clientText && env.isPost(t) {
        var merged := env.mergePost(t, serverContent.value, clientText.value);
        if merged.None? {
          conflicts := conflicts + [Conflict(t, true, [])];
          return true;
        }
        ok := WriteMerged(t, l, merged.value);
      } else {
        ok := WriteFile(l, env.encode(clientText.value));
        if ok {
          uploadedPaths := uploadedPaths + [t];
        }
      }
    }

    /** Processes one upload, the next path of the request. */
    method ProcessUpload(u: Upload, ghost r: Request, ghost start: Files) returns (ok: bool)
      requires IsOnRun(r, start) && IsOngoing(r, steps) && WrittenAreKept(r)
      requires |r.deleted| <= |steps| < |PathsOf(r)| && PathsOf(r)[|steps|] == Stripped(u.name)
      modifies `files, `journal, `conflicts, `toDownload, `uploadedPaths, `steps
      ensures IsOnRun(r, start) && WrittenAreKept(r)
      ensures ok ==> IsOngoing(r, steps) && |steps| == old(|steps|) + 1
      ensures ok ==> env.resolve(Stripped(u.name)).Some? && Seen() == Process(env, old(Seen()), u)
    {
      var t := Stripped(u.name);
      var target := env.resolve(t);
      if target.None? {
        return false;
      }
      ghost var before := Now();
      ok := RememberOriginalFile(t, target.value);
      if !ok {
        return false;
      }
      KeptPathsStay(before, t, target.value, uploadedPaths);
      ok := StoreUpload(u, t, target.value);
      ghost var step := Writes(t, At(files, target.value));
      assert Now() == Do(env.resolve, before, step);
      assert t == r.keys[|steps| - |r.deleted|];
      StepTaken(env.resolve, r, start, steps, step, before, Now(), steps + [step]);
      steps := steps + [step];
    }

    /** Processes the uploads in order, up to the first that raises. */
    method ProcessUploads(uploads: seq<Upload>, ghost r: Request, ghost start: Files) returns (ok: bool)
      requires IsOnRun(r, start) && IsOngoing(r, steps) && |steps| == |r.deleted| && r == RequestOf(r.deleted, uploads)
      requires conflicts == [] && toDownload == [] && uploadedPaths == []
      modifies `files, `journal, `conflicts, `toDownload, `uploadedPaths, `steps
      ensures IsOnRun(r, start) && WrittenAreKept(r)
      ensures ok ==> IsOngoing(r, steps) && |steps| == |PathsOf(r)| && AllResolve(env, uploads)
                     && Seen() == ProcessAll(env, View(old(files), [], [], []), uploads)
    {
      ghost var view := Seen();
      for i := 0 to |uploads|
        invariant IsOnRun(r, start) && IsOngoing(r, steps) && WrittenAreKept(r) && |steps| == |r.deleted| + i
        invariant Seen() == ProcessAll(env, view, uploads[..i]) && AllResolve(env, uploads[..i])
      {
        assert PathsOf(r)[|steps|] == r.keys[i];
        ok := ProcessUpload(uploads[i], r, start);
        if !ok {
          return;
        }
        ProcessAllSnoc(env, view, uploads, i);
        AllResolveSnoc(env, uploads, i);
      }
      assert uploads[..|uploads|] == uploads;
      return true;
    }

    /** Rewrites some of the uploaded posts. A post that cannot be read ends the phase; one that cannot be
        written is warned about and passed over. */
    method RewritePosts(ghost r: Request, ghost start: Files) returns (ok: bool)
      requires IsOnRun(r, start) && IsOngoing(r, steps) && WrittenAreKept(r) && |steps| >= |PathsOf(r)|
      requires rewritten == [] && warned == []
      modifies `files, `steps, `rewritten, `warned
      ensures IsOnRun(r, start)
      ensures forall t <- rewritten + warned :: t in uploadedPaths && env.isPost(t)
      ensures forall l :: At(files, l) == At(old(files), l)
                || IsPlaceOf(env, rewritten, l) || IsPlaceOf(env, warned, l)
    {
      for i := 0 to |uploadedPaths|
        invariant IsOnRun(r, start) && IsOngoing(r, steps) && WrittenAreKept(r) && |steps| >= |PathsOf(r)|
        invariant forall t <- rewritten + warned :: t in uploadedPaths && env.isPost(t)
        invariant forall l :: At(files, l) == At(old(files), l)
                    || IsPlaceOf(env, rewritten, l) || IsPlaceOf(env, warned, l)
      {
        var t := uploadedPaths[i];
        assert t in uploadedPaths;
        if env.isPost(t) {
          var readable: bool, changes: bool := *, *;
          if !readable {
            return false;
          }
          if changes {
            ghost var before := rewritten + warned;
            var written := RewritePost(t, env.resolve(t).value, r, start);
            if written {
              MorePlaces(env, rewritten, t);
              rewritten := rewritten + [t];
            } else {
              MorePlaces(env, warned, t);
              warned := warned + [t];
            }
            assert forall x <- rewritten + warned :: x in before || x == t;
          }
        }
      }
      return true;
    }

    /** Rewrites one post that has been journalled. */
    method RewritePost(t: string, l: Loc, ghost r: Request, ghost start: Files) returns (ok: bool)
      requires IsOnRun(r, start) && IsOngoing(r, steps) && |steps| >= |PathsOf(r)|
      requires t in r.keys && env.resolve(t) == Some(l) && HasKey(journal, t)
      modifies `files, `steps
      ensures IsOnRun(r, start) && IsOngoing(r, steps) && |steps| > old(|steps|)
      ensures forall x :: x != l ==> At(files, x) == At(old(files), x)
    {
      ghost var before := Now();
      var normalized: Bytes := *;
      ok := WriteFile(l, normalized);
      ghost var step := Writes(t, At(files, l));
      assert Now() == Do(env.resolve, before, step);
      StepTaken(env.resolve, r, start, steps, step, before, Now(), steps + [step]);
      steps := steps + [step];
    }

    /** Tells the client to download the files, if it has not been told to already. */
    method ListForDownload(modifiedFiles: seq<string>)
      modifies `toDownload
      ensures old(toDownload) <= toDownload
      ensures forall t <- modifiedFiles :: t in toDownload
      ensures forall t <- toDownload :: t in old(toDownload) || t in modifiedFiles
      ensures old(AreDistinct(toDownload)) ==> AreDistinct(toDownload)
    {
      for i := 0 to |modifiedFiles|
        invariant old(toDownload) <= toDownload
        invariant forall t <- modifiedFiles[..i] :: t in toDownload
        invariant forall t <- toDownload :: t in old(toDownload) || t in modifiedFiles
        invariant old(AreDistinct(toDownload)) ==> AreDistinct(toDownload)
      {
        assert modifiedFiles[..i + 1] == modifiedFiles[..i] + [modifiedFiles[i]];
        assert modifiedFiles[i] in modifiedFiles;
        if modifiedFiles[i] !in toDownload {
          assert (toDownload + [modifiedFiles[i]])[|toDownload|] == modifiedFiles[i];
          toDownload := toDownload + [modifiedFiles[i]];
        }
      }
      assert modifiedFiles[..|modifiedFiles|] == modifiedFiles;
    }

    /** Normalises what was written, and tells the client to download each file that it has rewritten. */
    method NormalizeFrontmatter(ghost r: Request, ghost start: Files) returns (ok: bool)
      requires IsOnRun(r, start) && IsOngoing(r, steps) && WrittenAreKept(r) && |steps| >= |PathsOf(r)|
      requires rewritten == [] && warned == []
      modifies `files, `toDownload, `steps, `rewritten, `warned
      ensures IsOnRun(r, start)
      ensures ok ==> Normalises(env, old(Seen()), Seen(), rewritten, warned)
      ensures ok && old(AreDistinct(toDownload)) ==> AreDistinct(toDownload)
    {
      ok := RewritePosts(r, start);
      if !ok {
        return;
      }
      ListForDownload(rewritten);
      assert forall t <- rewritten :: t in rewritten + warned;
      assert forall t <- warned :: t in rewritten + warned;
    }

    /** Restores the journalled files in order. Each attempt may fail, and then may leave anything there. */
    method RestoreOriginalFiles() returns (failures: seq<string>)
      modifies `files
      ensures forall l :: !FailedAt(env, failures, l) ==>
                At(files, l) == At(Restored(env.resolve, old(files), journal), l)
      ensures failures == [] ==> files == Restored(env.resolve, old(files), journal)
    {
      failures := [];
      ghost var start := files;
      for i := 0 to |journal|
        invariant forall l :: !FailedAt(env, failures, l) ==>
                  At(files, l) == At(Restored(env.resolve, start, journal[..i]), l)
      {
        var saved := journal[i];
        var target := RestoreTarget(env.resolve, saved.key);
        assert journal[..i + 1] == journal[..i] + [saved];
        RestoredSnoc(env.resolve, start, journal[..i], saved);
        ghost var failed := failures;
        var done: bool := *;
        if !done {
          failures := failures + [saved.key];
          MoreFailures(env, failed, saved.key);
        }
        if target.Some? {
          var gone: bool := *;
          var left: Bytes := *;
          files := Put(files, target.value, if done then saved.bytes else if gone then None else Some(left));
        }
      }
      assert journal[..|journal|] == journal;
      if failures == [] {
        SameFiles(files, Restored(env.resolve, start, journal));
      }
    }

    /** Deletions, uploads and normalisation; `false` when one of them raises. */
    method Mutate(deleted: seq<string>, uploads: seq<Upload>) returns (ok: bool)
      requires IsNew()
      modifies this
      ensures IsOnRun(RequestOf(deleted, uploads), old(files))
      ensures ok && Lossless(env) && DistinctPlaces(env, uploads) ==> HaveConverged(uploads, old(files))
      ensures ok ==> AreDeleted(env, old(files), afterDeletions, deleted, undeleted)
      ensures ok && Lossless(env) && DistinctPlaces(env, uploads) ==>
                AreAnswered(env, Seen(), rewritten, warned, uploads, afterDeletions)
    {
      ghost var r, original := RequestOf(deleted, uploads), files;
      ok := ApplyDeletions(deleted, r);
      if ok {
        ghost var processed: View;
        ok, processed := StoreUploads(uploads, r, original);
        if ok && Lossless(env) && DistinctPlaces(env, uploads) {
          CommitEnds(env, afterDeletions, uploads, processed, Seen(), rewritten, warned, original, deleted, undeleted);
        }
      }
    }

    /** Uploads and normalisation; `processed` is what the former make. */
    method StoreUploads(uploads: seq<Upload>, ghost r: Request, ghost start: Files)
      returns (ok: bool, ghost processed: View)
      requires IsOnRun(r, start) && IsOngoing(r, steps) && |steps| == |r.deleted| && r == RequestOf(r.deleted, uploads)
      requires conflicts == [] && toDownload == [] && uploadedPaths == [] && rewritten == [] && warned == []
      modifies `files, `journal, `conflicts, `toDownload, `uploadedPaths, `rewritten, `warned, `steps
      ensures IsOnRun(r, start)
      ensures ok ==> AllResolve(env, uploads) && processed == ProcessAll(env, View(old(files), [], [], []), uploads)
      ensures ok ==> Normalises(env, processed, Seen(), rewritten, warned)
      ensures ok && AreDistinct(processed.toDownload) ==> AreDistinct(toDownload)
    {
      ok := ProcessUploads(uploads, r, start);
      processed := Seen();
      if ok {
        ok := NormalizeFrontmatter(r, start);
      }
    }

    /** The whole commit. If it is rolled back and the request's paths fit, the files are what they were, except
        where restoring failed. If it goes through, the listed files are gone but for those it warns about; and if no
        two uploads share a place, every upload is answered and has converged, but for posts it warns about. */
    method Run(deleted: seq<string>, uploads: seq<Upload>, withinQuota: bool) returns (result: Result)
      requires IsNew()
      modifies this
      ensures result.RolledBackWith? && KeysFit(env.resolve, RequestOf(deleted, uploads)) ==>
                forall l :: !FailedAt(env, result.failures, l) ==> At(files, l) == At(old(files), l)
      ensures result.RolledBackWith? && result.failures == [] && KeysFit(env.resolve, RequestOf(deleted, uploads)) ==>
                files == old(files)
      ensures result.Committed? ==> withinQuota
      ensures result.Committed? && Lossless(env) && DistinctPlaces(env, uploads) ==> HaveConverged(uploads, old(files))
      ensures result.Committed? ==> AreDeleted(env, old(files), afterDeletions, deleted, undeleted)
      ensures result.Committed? && Lossless(env) && DistinctPlaces(env, uploads) ==>
                AreAnswered(env, Seen(), rewritten, warned, uploads, afterDeletions)
    {
      ghost var r := RequestOf(deleted, uploads);
      var ok := Mutate(deleted, uploads);
      if !ok || !withinQuota {
        if KeysFit(env.resolve, r) {
          FittingRunsAreUndone(env.resolve, r, old(files), steps);
        }
        var failures := RestoreOriginalFiles();
        return RolledBackWith(failures);
      }
      return Committed;
    }
  }

  lemma OneMoreDeleted(env: Env, start: Files, before: Files, after: Files, deleted: seq<string>, i: nat,
                       kept: seq<string>, undeleted: seq<string>)
    requires i < |deleted| && AreDeleted(env, start, before, deleted[..i], kept)
    requires Target(env.resolve, deleted[i]).Some? && (undeleted == kept || undeleted == kept + [deleted[i]])
    requires undeleted == kept ==> At(after, Target(env.resolve, deleted[i]).value) == None
    requires forall l :: At(after, l) == At(before, l)
               || (At(after, l) == None && Target(env.resolve, deleted[i]) == Some(l))
    ensures AreDeleted(env, start, after, deleted[..i + 1], undeleted)
  {
    assert deleted[..i + 1] == deleted[..i] + [deleted[i]];
    assert forall path <- deleted[..i + 1] :: path in deleted[..i] || path == deleted[i];
    assert deleted[..i + 1][i] == deleted[i];
    assert undeleted != kept ==> undeleted[|kept|] == deleted[i];
    forall l | IsListed(env, deleted[..i], l) || Target(env.resolve, deleted[i]) == Some(l)
      ensures IsListed(env, deleted[..i + 1], l)
    {
      if IsListed(env, deleted[..i], l) {
        var path :| path in deleted[..i] && Target(env.resolve, path) == Some(l);
        assert path in deleted[..i + 1];
      }
    }
  }

  lemma AllConvergedFrom(env: Env, w: View, uploads: seq<Upload>, warned: seq<string>, start: Files, original: Files,
                         deleted: seq<string>, undeleted: seq<string>)
    requires AreDeleted(env, original, start, deleted, undeleted)
    requires forall u <- uploads :: Stripped(u.name) in warned || Converged(env, w, u, start)
    ensures forall u <- uploads :: Stripped(u.name) in warned || Converged(env, w, u, original)
  {
    forall u | u in uploads && Stripped(u.name) !in warned ensures Converged(env, w, u, original) {
      ConvergedFrom(env, w, u, start, original);
    }
  }

  /** What the steps of a commit with distinct places amount to. */
  lemma CommitEnds(env: Env, files: Files, uploads: seq<Upload>, v: View, w: View, rewritten: seq<string>,
                   warned: seq<string>, original: Files, deleted: seq<string>, undeleted: seq<string>)
    requires Lossless(env) && AllResolve(env, uploads) && DistinctPlaces(env, uploads)
    requires v == ProcessAll(env, View(files, [], [], []), uploads) && Normalises(env, v, w, rewritten, warned)
    requires AreDistinct(v.toDownload) ==> AreDistinct(w.toDownload)
    requires AreDeleted(env, original, files, deleted, undeleted)
    ensures AreAnswered(env, w, rewritten, warned, uploads, files)
    ensures forall u <- uploads :: Stripped(u.name) in warned || Converged(env, w, u, original)
  {
    DistinctDownloads(env, files, uploads);
    UploadsAreAnswered(env, files, uploads, w, rewritten, warned);
    DistinctUploadsConverge(env, files, uploads, w, rewritten, warned);
    AllConvergedFrom(env, w, uploads, warned, files, original, deleted, undeleted);
  }

  lemma DistinctDownloads(env: Env, files: Files, uploads: seq<Upload>)
    requires Lossless(env) && AllResolve(env, uploads) && DistinctPlaces(env, uploads)
    ensures AreDistinct(ProcessAll(env, View(files, [], [], []), uploads).toDownload)
  {
    assert uploads[..|uploads|] == uploads;
    AnsweredRun(env, files, uploads, |uploads|, ProcessAll(env, View(files, [], [], []), uploads));
  }

  lemma MorePlaces(env: Env, paths: seq<string>, t: string)
    ensures forall l :: IsPlaceOf(env, paths + [t], l) <==> IsPlaceOf(env, paths, l) || env.resolve(t) == Some(l)
  {
    assert t in paths + [t];
    forall l | IsPlaceOf(env, paths, l) ensures IsPlaceOf(env, paths + [t], l) {
      var x :| x in paths && env.resolve(x) == Some(l);
      assert x in paths + [t];
    }
  }

  lemma MoreFailures(env: Env, failures: seq<string>, key: string)
    ensures forall l :: FailedAt(env, failures + [key], l)
              <==> FailedAt(env, failures, l) || RestoreTarget(env.resolve, key) == Some(l)
  {
    forall l
      ensures FailedAt(env, failures + [key], l)
              <==> FailedAt(env, failures, l) || RestoreTarget(env.resolve, key) == Some(l)
    {
      if FailedAt(env, failures, l) {
        var k :| k in failures && RestoreTarget(env.resolve, k) == Some(l);
        assert k in failures + [key];
      }
      assert key in failures + [key];
    }
  }

  /** Remembering a file keeps what was journalled, and adds its key. */
  lemma KeptPathsStay(before: Trail, key: string, l: Loc, paths: seq<string>)
    requires forall t <- paths :: HasKey(before.journal, t)
    ensures forall t <- paths + [key] :: HasKey(Remember(before, key, l), t)
  {
    var after := Remember(before, key, l);
    forall t | t in paths + [key] ensures HasKey(after, t) {
      if HasKey(before.journal, t) {
        var e :| e in before.journal && e.key == t;
        assert e in after;
      } else {
        assert after[|before.journal|].key == key && after[|before.journal|] in after;
      }
    }
  }
}
