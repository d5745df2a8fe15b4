/** What a client is answered for each upload of a completed sync commit, and what is then in the file: one of
    three outcomes, decided by the server's text, the client's text, and the merge. */
module SyncAnswers {
  import opened Options
  import opened SyncJournal
  import opened SyncConvergence

  /** The two texts of an upload that is to be merged: both sides are text, they differ, and the path is
      the label file or a post. */
  ghost predicate AreToMerge(env: Env, t: string, server: Option<Bytes>, data: Bytes, mine: Text, theirs: Text) {
    && server.Some? && env.readText(server.value) == Some(mine) && env.decode(data) == Some(theirs) && mine != theirs
    && (env.isLabels(t) || env.isPost(t))
  }

  /** What merging gives; nothing if it raises. */
  function Merged(env: Env, t: string, mine: Text, theirs: Text): Option<Merge> {
    if env.isLabels(t) then
      var m := env.mergeLabels(t, mine, theirs);
      Some(Merge(m.content, false, m.fieldConflicts))
    else env.mergePost(t, mine, theirs)
  }

  /** The conflicts listed for a path, in order. */
  function ConflictsOf(conflicts: seq<Conflict>, t: string): seq<Conflict> {
    if conflicts == [] then []
    else
      var front, last := conflicts[..|conflicts| - 1], conflicts[|conflicts| - 1];
      ConflictsOf(front, t) + if last.path == t then [last] else []
  }

  /** The file holds these bytes, unless normalisation has rewritten it or failed to. */
  ghost predicate Holds(w: View, rewritten: seq<string>, failed: seq<string>, t: string, l: Loc, data: Bytes) {
    t in w.uploadedPaths && (At(w.files, l) == Some(data) || t in rewritten || t in failed)
  }

  /** Written as it was uploaded: no conflict, and nothing to download unless it was rewritten. */
  ghost predicate IsOverwritten(w: View, rewritten: seq<string>, failed: seq<string>, t: string, l: Loc, data: Bytes) {
    && Holds(w, rewritten, failed, t, l, data)
    && ConflictsOf(w.conflicts, t) == [] && (t in w.toDownload <==> t in rewritten)
  }

  /** Replaced by the merge, which is to be downloaded, and whose conflicts are listed if there are any. */
  ghost predicate IsMerged(env: Env, w: View, rewritten: seq<string>, failed: seq<string>, t: string, l: Loc,
                           m: Merge)
  {
    && Holds(w, rewritten, failed, t, l, env.encode(m.content)) && t in w.toDownload
    && ConflictsOf(w.conflicts, t)
       == if m.bodyConflicted || m.fieldConflicts != [] then [Conflict(t, m.bodyConflicted, m.fieldConflicts)] else []
  }

  /** The merge raised: the file is as it was, and one conflict is listed. */
  ghost predicate IsRefused(w: View, t: string, l: Loc, start: Files) {
    && At(w.files, l) == At(start, l) && t !in w.uploadedPaths && t !in w.toDownload
    && ConflictsOf(w.conflicts, t) == [Conflict(t, true, [])]
  }

  /** The answer for an upload, given the files before all uploads. */
  ghost predicate IsAnswered(env: Env, w: View, rewritten: seq<string>, failed: seq<string>, u: Upload, start: Files) {
    var t := Stripped(u.name);
    && env.resolve(t).Some?
    && var l := env.resolve(t).value;
    && (forall mine, theirs :: AreToMerge(env, t, At(start, l), u.data, mine, theirs) ==>
          var m := Merged(env, t, mine, theirs);
          if m.Some? then IsMerged(env, w, rewritten, failed, t, l, m.value) else IsRefused(w, t, l, start))
    && ((forall mine, theirs :: !AreToMerge(env, t, At(start, l), u.data, mine, theirs)) ==>
          IsOverwritten(w, rewritten, failed, t, l, u.data))
  }

  /** All uploads are answered, nothing is answered that was not uploaded, and no other file has changed. */
  ghost predicate AreAnswered(env: Env, w: View, rewritten: seq<string>, failed: seq<string>, uploads: seq<Upload>,
                              start: Files)
  {
    && (forall u <- uploads :: IsAnswered(env, w, rewritten, failed, u, start))
    && NothingElse(env, w, uploads, start)
  }

  ghost predicate NothingElse(env: Env, w: View, uploads: seq<Upload>, start: Files) {
    && (forall t :: IsMentioned(w, t) ==> IsUploaded(uploads, t))
    && (forall i, j :: 0 <= i < j < |w.toDownload| ==> w.toDownload[i] != w.toDownload[j])
    && forall l :: At(w.files, l) == At(start, l) || LeadsTo(env, uploads, l)
  }

  predicate IsMentioned(w: View, t: string) {
    t in w.toDownload || t in w.uploadedPaths || exists c <- w.conflicts :: c.path == t
  }

  ghost predicate IsUploaded(uploads: seq<Upload>, t: string) {
    exists u <- uploads :: Stripped(u.name) == t
  }

  ghost predicate LeadsTo(env: Env, uploads: seq<Upload>, l: Loc) {
    exists u <- uploads :: env.resolve(Stripped(u.name)) == Some(l)
  }

  // ----- One upload after the other

  lemma {:induction false} ConflictsOfAppend(a: seq<Conflict>, b: seq<Conflict>, t: string)
    ensures ConflictsOf(a + b, t) == ConflictsOf(a, t) + ConflictsOf(b, t)
  {
    if b == [] {
      assert a + b == a;
    } else {
      assert (a + b)[..|a + b| - 1] == a + b[..|b| - 1];
      ConflictsOfAppend(a, b[..|b| - 1], t);
    }
  }

  lemma {:induction false} NoConflictsOf(conflicts: seq<Conflict>, t: string)
    requires forall c <- conflicts :: c.path != t
    ensures ConflictsOf(conflicts, t) == []
  {
    if conflicts != [] {
      NoConflictsOf(conflicts[..|conflicts| - 1], t);
    }
  }

  lemma OneConflict(c: Conflict, t: string)
    ensures ConflictsOf([c], t) == if c.path == t then [c] else []
  {
    assert [c][..0] == [];
    assert ConflictsOf([], t) == [];
  }

  /** What one more upload adds: nothing to the conflicts of other paths. */
  lemma ProcessConflicts(env: Env, v: View, u: Upload, t: string)
    requires env.resolve(Stripped(u.name)).Some?
    ensures var w := Process(env, v, u);
            var plan := PlanFor(env, Stripped(u.name), At(v.files, env.resolve(Stripped(u.name)).value), u.data);
            ConflictsOf(w.conflicts, t)
            == ConflictsOf(v.conflicts, t) + if t == Stripped(u.name) then Reported(t, plan) else []
  {
    var x := Stripped(u.name);
    var plan := PlanFor(env, x, At(v.files, env.resolve(x).value), u.data);
    ConflictsOfAppend(v.conflicts, Reported(x, plan), t);
    if Reported(x, plan) == [] {
      assert ConflictsOf([], t) == [];
    } else {
      OneConflict(Reported(x, plan)[0], t);
    }
  }

  lemma NewIsAnswered(env: Env, v: View, u: Upload, start: Files)
    requires Lossless(env) && env.resolve(Stripped(u.name)).Some?
    requires At(v.files, env.resolve(Stripped(u.name)).value) == At(start, env.resolve(Stripped(u.name)).value)
    requires Stripped(u.name) !in v.uploadedPaths && Stripped(u.name) !in v.toDownload
    requires ConflictsOf(v.conflicts, Stripped(u.name)) == []
    ensures IsAnswered(env, Process(env, v, u), [], [], u, start)
  {
    var t := Stripped(u.name);
    var l := env.resolve(t).value;
    var w := Process(env, v, u);
    ProcessConflicts(env, v, u, t);
    ListsGrow(env, v, u);
    forall mine, theirs | AreToMerge(env, t, At(start, l), u.data, mine, theirs)
      ensures var m := Merged(env, t, mine, theirs);
              if m.Some? then IsMerged(env, w, [], [], t, l, m.value) else IsRefused(w, t, l, start)
    {
    }
    if forall mine, theirs :: !AreToMerge(env, t, At(start, l), u.data, mine, theirs) {
      NotMerged(env, t, At(start, l), u.data);
    }
  }

  lemma NotMerged(env: Env, t: string, server: Option<Bytes>, data: Bytes)
    requires forall mine, theirs :: !AreToMerge(env, t, server, data, mine, theirs)
    ensures PlanFor(env, t, server, data) == WriteUpload
  {
    if server.Some? && env.readText(server.value).Some? && env.decode(data).Some? {
      assert !AreToMerge(env, t, server, data, env.readText(server.value).value, env.decode(data).value);
    }
  }

  /** The paths that one more upload adds to the lists. */
  lemma ListsGrow(env: Env, v: View, u: Upload)
    requires env.resolve(Stripped(u.name)).Some?
    ensures var w, t := Process(env, v, u), Stripped(u.name);
            var plan := PlanFor(env, t, At(v.files, env.resolve(t).value), u.data);
            && w.uploadedPaths == v.uploadedPaths + (if plan.MergeRaised? then [] else [t])
            && w.toDownload == v.toDownload + (if plan.WriteMerge? then [t] else [])
            && (t in w.uploadedPaths <==> t in v.uploadedPaths || !plan.MergeRaised?)
            && (t in w.toDownload <==> t in v.toDownload || plan.WriteMerge?)
  {
    var w, t := Process(env, v, u), Stripped(u.name);
    assert (v.uploadedPaths + [t])[|v.uploadedPaths|] == t && (v.toDownload + [t])[|v.toDownload|] == t;
  }

  lemma OthersStayAnswered(env: Env, v: View, u: Upload, other: Upload, start: Files)
    requires env.resolve(Stripped(u.name)).Some? && env.resolve(Stripped(other.name)) != env.resolve(Stripped(u.name))
    requires IsAnswered(env, v, [], [], other, start)
    ensures IsAnswered(env, Process(env, v, u), [], [], other, start)
  {
    var w, t := Process(env, v, u), Stripped(other.name);
    ProcessTouches(env, v, u);
    ProcessConflicts(env, v, u, t);
    ListsGrow(env, v, u);
    assert t != Stripped(u.name);
    assert t in w.uploadedPaths <==> t in v.uploadedPaths;
    assert t in w.toDownload <==> t in v.toDownload;
    assert ConflictsOf(w.conflicts, t) == ConflictsOf(v.conflicts, t);
    assert At(w.files, env.resolve(t).value) == At(v.files, env.resolve(t).value);
    SameAnswer(env, v, w, other, start);
  }

  lemma SameAnswer(env: Env, v: View, w: View, u: Upload, start: Files)
    requires IsAnswered(env, v, [], [], u, start)
    requires var t := Stripped(u.name);
             && (t in w.uploadedPaths <==> t in v.uploadedPaths) && (t in w.toDownload <==> t in v.toDownload)
             && ConflictsOf(w.conflicts, t) == ConflictsOf(v.conflicts, t)
             && At(w.files, env.resolve(t).value) == At(v.files, env.resolve(t).value)
    ensures IsAnswered(env, w, [], [], u, start)
  {
  }

  lemma PathIsNew(env: Env, v: View, uploads: seq<Upload>, i: nat, start: Files)
    requires i < |uploads| && DistinctPlaces(env, uploads) && AreAnswered(env, v, [], [], uploads[..i], start)
    requires env.resolve(Stripped(uploads[i].name)).Some?
    ensures var t := Stripped(uploads[i].name);
            && t !in v.uploadedPaths && t !in v.toDownload && ConflictsOf(v.conflicts, t) == []
            && At(v.files, env.resolve(t).value) == At(start, env.resolve(t).value)
  {
    PlaceIsNew(env, uploads, i);
    var t := Stripped(uploads[i].name);
    assert !IsUploaded(uploads[..i], t) && !LeadsTo(env, uploads[..i], env.resolve(t).value);
    assert !IsMentioned(v, t);
    NoConflictsOf(v.conflicts, t);
  }

  lemma MoreUploaded(env: Env, uploads: seq<Upload>, i: nat)
    requires i < |uploads|
    ensures forall t :: IsUploaded(uploads[..i + 1], t)
                        <==> IsUploaded(uploads[..i], t) || t == Stripped(uploads[i].name)
    ensures forall l :: LeadsTo(env, uploads[..i + 1], l)
                        <==> LeadsTo(env, uploads[..i], l) || env.resolve(Stripped(uploads[i].name)) == Some(l)
  {
    SnocMembers(uploads, i);
  }

  lemma ConflictPaths(env: Env, v: View, u: Upload)
    requires env.resolve(Stripped(u.name)).Some?
    ensures forall c <- Process(env, v, u).conflicts :: c in v.conflicts || c.path == Stripped(u.name)
  {
  }

  lemma NothingElseStep(env: Env, v: View, uploads: seq<Upload>, i: nat, start: Files)
    requires i < |uploads| && env.resolve(Stripped(uploads[i].name)).Some?
    requires NothingElse(env, v, uploads[..i], start) && Stripped(uploads[i].name) !in v.toDownload
    ensures NothingElse(env, Process(env, v, uploads[i]), uploads[..i + 1], start)
  {
    var u := uploads[i];
    MoreUploaded(env, uploads, i);
    MentionsGrow(env, v, u);
    ListsGrow(env, v, u);
    ProcessTouches(env, v, u);
  }

  lemma MentionsGrow(env: Env, v: View, u: Upload)
    requires env.resolve(Stripped(u.name)).Some?
    ensures forall t :: IsMentioned(Process(env, v, u), t) ==> IsMentioned(v, t) || t == Stripped(u.name)
  {
    ConflictPaths(env, v, u);
    ListsGrow(env, v, u);
    forall t | IsMentioned(Process(env, v, u), t) ensures IsMentioned(v, t) || t == Stripped(u.name) {
      if c :| c in Process(env, v, u).conflicts && c.path == t {
        assert c in v.conflicts || t == Stripped(u.name);
      }
    }
  }

  lemma AnsweredStep(env: Env, v: View, uploads: seq<Upload>, i: nat, start: Files)
    requires Lossless(env) && AllResolve(env, uploads) && DistinctPlaces(env, uploads) && i < |uploads|
    requires AreAnswered(env, v, [], [], uploads[..i], start)
    ensures AreAnswered(env, Process(env, v, uploads[i]), [], [], uploads[..i + 1], start)
  {
    var u := uploads[i];
    assert u in uploads;
    var w := Process(env, v, u);
    PathIsNew(env, v, uploads, i, start);
    NewIsAnswered(env, v, u, start);
    SnocMembers(uploads, i);
    PlaceIsNew(env, uploads, i);
    NothingElseStep(env, v, uploads, i, start);
    forall x | x in uploads[..i + 1] ensures IsAnswered(env, w, [], [], x, start) {
      if x != u {
        OthersStayAnswered(env, v, u, x, start);
      }
    }
  }

  lemma {:induction false} AnsweredRun(env: Env, files: Files, uploads: seq<Upload>, n: nat, v: View)
    requires Lossless(env) && AllResolve(env, uploads) && DistinctPlaces(env, uploads) && n <= |uploads|
    requires v == ProcessAll(env, View(files, [], [], []), uploads[..n])
    ensures AreAnswered(env, v, [], [], uploads[..n], files)
  {
    if n > 0 {
      var start := View(files, [], [], []);
      var front := ProcessAll(env, start, uploads[..n - 1]);
      AnsweredRun(env, files, uploads, n - 1, front);
      ProcessAllSnoc(env, start, uploads, n - 1);
      AnsweredStep(env, front, uploads, n - 1, files);
    }
  }

  // ----- Normalisation

  /** A written path that leads to the place of an upload is that upload's. */
  lemma WrittenPlace(env: Env, v: View, uploads: seq<Upload>, start: Files, u: Upload, paths: seq<string>)
    requires AreAnswered(env, v, [], [], uploads, start) && u in uploads && DistinctPlaces(env, uploads)
    requires env.resolve(Stripped(u.name)).Some? && forall t <- paths :: t in v.uploadedPaths
    ensures IsPlaceOf(env, paths, env.resolve(Stripped(u.name)).value) ==> Stripped(u.name) in paths
  {
    forall t | t in paths && env.resolve(t) == env.resolve(Stripped(u.name)) ensures t == Stripped(u.name) {
      assert IsMentioned(v, t);
      var x :| x in uploads && Stripped(x.name) == t;
      SamePlaceSameUpload(env, uploads, u, x);
    }
  }

  lemma NormalisedAnswer(env: Env, v: View, w: View, uploads: seq<Upload>, u: Upload, start: Files,
                         rewritten: seq<string>, failed: seq<string>)
    requires AreAnswered(env, v, [], [], uploads, start) && u in uploads && DistinctPlaces(env, uploads)
    requires Normalises(env, v, w, rewritten, failed)
    ensures IsAnswered(env, w, rewritten, failed, u, start)
  {
    var t := Stripped(u.name);
    assert IsAnswered(env, v, [], [], u, start);
    var l := env.resolve(t).value;
    WrittenPlace(env, v, uploads, start, u, rewritten);
    WrittenPlace(env, v, uploads, start, u, failed);
    assert At(w.files, l) == At(v.files, l) || t in rewritten || t in failed;
    HeldAnswer(env, v, w, u, start, rewritten, failed);
  }

  lemma HeldAnswer(env: Env, v: View, w: View, u: Upload, start: Files, rewritten: seq<string>, failed: seq<string>)
    requires IsAnswered(env, v, [], [], u, start)
    requires var t := Stripped(u.name);
             && w.conflicts == v.conflicts && w.uploadedPaths == v.uploadedPaths
             && (t in w.toDownload <==> t in v.toDownload || t in rewritten)
             && (t in rewritten || t in failed ==> t in v.uploadedPaths)
             && (t in rewritten || t in failed
                 || At(w.files, env.resolve(t).value) == At(v.files, env.resolve(t).value))
    ensures IsAnswered(env, w, rewritten, failed, u, start)
  {
  }

  /** A completed commit whose uploads lead to different places answers each of them, and only them. */
  lemma UploadsAreAnswered(env: Env, files: Files, uploads: seq<Upload>, w: View, rewritten: seq<string>,
                           failed: seq<string>)
    requires Lossless(env) && AllResolve(env, uploads) && DistinctPlaces(env, uploads)
    requires Normalises(env, ProcessAll(env, View(files, [], [], []), uploads), w, rewritten, failed)
    requires forall i, j :: 0 <= i < j < |w.toDownload| ==> w.toDownload[i] != w.toDownload[j]
    ensures AreAnswered(env, w, rewritten, failed, uploads, files)
  {
    var v := ProcessAll(env, View(files, [], [], []), uploads);
    assert uploads[..|uploads|] == uploads;
    AnsweredRun(env, files, uploads, |uploads|, v);
    forall u | u in uploads ensures IsAnswered(env, w, rewritten, failed, u, files) {
      NormalisedAnswer(env, v, w, uploads, u, files, rewritten, failed);
    }
    forall t | IsMentioned(w, t) ensures IsUploaded(uploads, t) {
      assert IsMentioned(v, t);
    }
    forall l ensures At(w.files, l) == At(files, l) || LeadsTo(env, uploads, l) {
      WrittenLeads(env, v, uploads, files, rewritten, l);
      WrittenLeads(env, v, uploads, files, failed, l);
    }
  }

  lemma WrittenLeads(env: Env, v: View, uploads: seq<Upload>, start: Files, paths: seq<string>, l: Loc)
    requires AreAnswered(env, v, [], [], uploads, start) && forall t <- paths :: t in v.uploadedPaths
    ensures IsPlaceOf(env, paths, l) ==> LeadsTo(env, uploads, l)
  {
    if IsPlaceOf(env, paths, l) {
      var t :| t in paths && env.resolve(t) == Some(l);
      assert IsMentioned(v, t);
    }
  }
}
