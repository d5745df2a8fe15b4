/** What a completed sync commit makes of its uploads, and when client and server converge. */
module SyncConvergence {
  import opened Options
  import opened SyncJournal

  type Text = string

  datatype Upload = Upload(name: string, data: Bytes)

  datatype Merge = Merge(content: Text, bodyConflicted: bool, fieldConflicts: seq<string>)

  /** Merging label files reports fields only, those that are no internal markers. */
  datatype LabelsMerge = LabelsMerge(content: Text, fieldConflicts: seq<string>)

  datatype Conflict = Conflict(path: string, bodyConflicted: bool, fieldConflicts: seq<string>)

  /** The functions around the commit. `decode` is the strict decoding of an upload, `readText` what
      reading the server's file as text gives; either is `None` for binary data. `mergePost` is `None`
      when the merge raises. */
  datatype Env = Env(
    resolve: Resolver,
    isPost: string -> bool,
    isLabels: string -> bool,
    decode: Bytes -> Option<Text>,
    encode: Text -> Bytes,
    readText: Bytes -> Option<Text>,
    mergePost: (string, Text, Text) -> Option<Merge>,
    mergeLabels: (string, Text, Text) -> LabelsMerge)

  /** Encoding undoes decoding. */
  ghost predicate Lossless(env: Env) {
    forall b :: env.decode(b).Some? ==> env.encode(env.decode(b).value) == b
  }

  /** What is to be done with an upload, given the server's bytes for its path. */
  datatype Plan = WriteUpload | WriteMerge(merge: Merge) | MergeRaised

  function OfLabels(m: LabelsMerge): Merge {
    Merge(m.content, false, m.fieldConflicts)
  }

  /** A semantic merge is tried when both sides are text, they differ, and the path is the label file or
      a post; everything else is overwritten. */
  function PlanFor(env: Env, t: string, server: Option<Bytes>, data: Bytes): Plan {
    var client := env.decode(data);
    var current := if server.Some? then env.readText(server.value) else None;
    if client.None? || current.None? || current == client then WriteUpload
    else if env.isLabels(t) then WriteMerge(OfLabels(env.mergeLabels(t, current.value, client.value)))
    else if env.isPost(t) then
      var merge := env.mergePost(t, current.value, client.value);
      if merge.None? then MergeRaised else WriteMerge(merge.value)
    else WriteUpload
  }

  function Reported(t: string, plan: Plan): seq<Conflict> {
    match plan
    case WriteUpload => []
    case MergeRaised => [Conflict(t, true, [])]
    case WriteMerge(m) =>
      if m.bodyConflicted || m.fieldConflicts != [] then [Conflict(t, m.bodyConflicted, m.fieldConflicts)] else []
  }

  /** The bytes written for an upload that is not merged: text is decoded and encoded again. */
  function UploadBytes(env: Env, data: Bytes): Bytes {
    var text := env.decode(data);
    if text.Some? then env.encode(text.value) else data
  }

  /** What a client can see of a commit: the files and the lists it is answered with. */
  datatype View = View(files: Files, conflicts: seq<Conflict>, toDownload: seq<string>, uploadedPaths: seq<string>)

  /** An upload that goes through. */
  function Process(env: Env, v: View, u: Upload): View {
    var t := Stripped(u.name);
    var l := env.resolve(t);
    if l.None? then v
    else
      var plan := PlanFor(env, t, At(v.files, l.value), u.data);
      var reported := v.(conflicts := v.conflicts + Reported(t, plan));
      match plan
      case MergeRaised => reported
      case WriteUpload =>
        reported.(files := v.files[l.value := UploadBytes(env, u.data)], uploadedPaths := v.uploadedPaths + [t])
      case WriteMerge(m) =>
        reported.(files := v.files[l.value := env.encode(m.content)], uploadedPaths := v.uploadedPaths + [t],
                  toDownload := v.toDownload + [t])
  }

  function ProcessAll(env: Env, v: View, uploads: seq<Upload>): View {
    if uploads == [] then v else Process(env, ProcessAll(env, v, uploads[..|uploads| - 1]), uploads[|uploads| - 1])
  }

  lemma ProcessAllSnoc(env: Env, v: View, uploads: seq<Upload>, i: nat)
    requires i < |uploads|
    ensures ProcessAll(env, v, uploads[..i + 1]) == Process(env, ProcessAll(env, v, uploads[..i]), uploads[i])
  {
    assert uploads[..i + 1][..i] == uploads[..i];
  }

  lemma AllResolveSnoc(env: Env, uploads: seq<Upload>, i: nat)
    requires i < |uploads| && AllResolve(env, uploads[..i]) && env.resolve(Stripped(uploads[i].name)).Some?
    ensures AllResolve(env, uploads[..i + 1])
  {
    assert uploads[..i + 1] == uploads[..i] + [uploads[i]];
  }

  /** Normalisation changes only uploaded posts. Those that it has rewritten are added to the download list, unless
      they are on it; `failed` are those that it could not rewrite, which may be left in any state and are not added. */
  ghost predicate Normalises(env: Env, v: View, w: View, rewritten: seq<string>, failed: seq<string>) {
    && w.conflicts == v.conflicts && w.uploadedPaths == v.uploadedPaths && v.toDownload <= w.toDownload
    && (forall t :: t in w.toDownload <==> t in v.toDownload || t in rewritten)
    && (forall t <- rewritten :: t in v.uploadedPaths && env.isPost(t))
    && (forall t <- failed :: t in v.uploadedPaths && env.isPost(t))
    && forall l :: At(w.files, l) == At(v.files, l) || IsPlaceOf(env, rewritten, l) || IsPlaceOf(env, failed, l)
  }

  ghost predicate IsPlaceOf(env: Env, paths: seq<string>, l: Loc) {
    exists t <- paths :: env.resolve(t) == Some(l)
  }

  /** What a processed upload leaves behind: the uploaded bytes, a file the client is told to download, or,
      if its merge raised, a reported conflict and the file as it was at the start. */
  ghost predicate Converged(env: Env, v: View, u: Upload, start: Files) {
    var t := Stripped(u.name);
    && env.resolve(t).Some?
    && var l := env.resolve(t).value;
    || At(v.files, l) == Some(u.data)
    || t in v.toDownload
    || (Conflict(t, true, []) in v.conflicts && t !in v.uploadedPaths && l in start && At(v.files, l) == At(start, l)
        && PlanFor(env, t, At(start, l), u.data).MergeRaised?)
  }

  /** Every upload leads somewhere. */
  ghost predicate AllResolve(env: Env, uploads: seq<Upload>) {
    forall u <- uploads :: env.resolve(Stripped(u.name)).Some?
  }

  /** No two uploads lead to the same place. */
  ghost predicate DistinctPlaces(env: Env, uploads: seq<Upload>) {
    forall i, j :: 0 <= i < j < |uploads| ==>
        env.resolve(Stripped(uploads[i].name)) != env.resolve(Stripped(uploads[j].name))
  }

  // ----- Uploads to different places converge

  /** Where the uploads have written so far. */
  ghost predicate Progress(env: Env, v: View, uploads: seq<Upload>, start: Files) {
    && (forall u <- uploads :: Converged(env, v, u, start))
    && (forall t <- v.uploadedPaths :: exists u <- uploads :: Stripped(u.name) == t)
    && (forall l :: At(v.files, l) == At(start, l) || exists u <- uploads :: env.resolve(Stripped(u.name)) == Some(l))
  }

  /** Processing one upload makes it converge, and touches only its own place and path. */
  lemma ProcessConverges(env: Env, v: View, u: Upload, start: Files)
    requires Lossless(env) && env.resolve(Stripped(u.name)).Some? && Stripped(u.name) !in v.uploadedPaths
    requires var l := env.resolve(Stripped(u.name)).value; At(v.files, l) == At(start, l)
    ensures Converged(env, Process(env, v, u), u, start)
  {
    var t := Stripped(u.name);
    var w := Process(env, v, u);
    var plan := PlanFor(env, t, At(v.files, env.resolve(t).value), u.data);
    if plan.MergeRaised? {
      assert w.conflicts[|w.conflicts| - 1] == Conflict(t, true, []);
    } else if plan.WriteMerge? {
      assert w.toDownload[|w.toDownload| - 1] == t;
    }
  }

  lemma ProcessTouches(env: Env, v: View, u: Upload)
    requires env.resolve(Stripped(u.name)).Some?
    ensures var w := Process(env, v, u); var t := Stripped(u.name);
            && v.toDownload <= w.toDownload && v.conflicts <= w.conflicts
            && (w.uploadedPaths == v.uploadedPaths || w.uploadedPaths == v.uploadedPaths + [t])
            && forall l :: env.resolve(t) != Some(l) ==> At(w.files, l) == At(v.files, l)
  {
  }

  /** Processing an upload to another place leaves a converged one converged. */
  lemma OthersStayConverged(env: Env, v: View, u: Upload, other: Upload, start: Files)
    requires env.resolve(Stripped(u.name)).Some? && env.resolve(Stripped(other.name)) != env.resolve(Stripped(u.name))
    requires Converged(env, v, other, start)
    ensures Converged(env, Process(env, v, u), other, start)
  {
    ProcessTouches(env, v, u);
  }

  lemma SnocMembers(uploads: seq<Upload>, i: nat)
    requires i < |uploads|
    ensures forall u <- uploads[..i + 1] :: u in uploads[..i] || u == uploads[i]
    ensures forall u <- uploads[..i] :: u in uploads[..i + 1]
    ensures uploads[i] in uploads[..i + 1]
  {
  }

  lemma PlaceIsNew(env: Env, uploads: seq<Upload>, i: nat)
    requires i < |uploads| && DistinctPlaces(env, uploads)
    ensures forall u <- uploads[..i] :: env.resolve(Stripped(u.name)) != env.resolve(Stripped(uploads[i].name))
  {
  }

  /** One more upload of a request with distinct places. */
  lemma ProgressStep(env: Env, v: View, uploads: seq<Upload>, i: nat, start: Files)
    requires Lossless(env) && AllResolve(env, uploads) && DistinctPlaces(env, uploads) && i < |uploads|
    requires Progress(env, v, uploads[..i], start)
    ensures Progress(env, Process(env, v, uploads[i]), uploads[..i + 1], start)
  {
    var u := uploads[i];
    SnocMembers(uploads, i);
    PlaceIsNew(env, uploads, i);
    ProcessTouches(env, v, u);
    ProcessConverges(env, v, u, start);
    forall x | x in uploads[..i + 1] ensures Converged(env, Process(env, v, u), x, start) {
      if x != u {
        OthersStayConverged(env, v, u, x, start);
      }
    }
  }

  lemma {:induction false} ProgressRun(env: Env, files: Files, uploads: seq<Upload>, n: nat)
    requires Lossless(env) && AllResolve(env, uploads) && DistinctPlaces(env, uploads) && n <= |uploads|
    ensures Progress(env, ProcessAll(env, View(files, [], [], []), uploads[..n]), uploads[..n], files)
  {
    if n > 0 {
      ProgressRun(env, files, uploads, n - 1);
      assert uploads[..n][..n - 1] == uploads[..n - 1];
      ProgressStep(env, ProcessAll(env, View(files, [], [], []), uploads[..n - 1]), uploads, n - 1, files);
    }
  }

  /** Normalisation keeps an upload converged unless rewriting it failed: a file it changes is one the client will
      download. */
  lemma StaysConverged(env: Env, v: View, w: View, u: Upload, uploads: seq<Upload>, start: Files,
                       rewritten: seq<string>, failed: seq<string>)
    requires Progress(env, v, uploads, start) && u in uploads && DistinctPlaces(env, uploads)
    requires Normalises(env, v, w, rewritten, failed) && Stripped(u.name) !in failed
    ensures Converged(env, w, u, start)
  {
    var t := Stripped(u.name);
    var l := env.resolve(t).value;
    assert Converged(env, v, u, start);
    PlaceOfUpload(env, v, u, uploads, start, rewritten);
    PlaceOfUpload(env, v, u, uploads, start, failed);
  }

  /** The place of an upload is among those of some written paths only if its own path is. */
  lemma PlaceOfUpload(env: Env, v: View, u: Upload, uploads: seq<Upload>, start: Files, paths: seq<string>)
    requires Progress(env, v, uploads, start) && u in uploads && DistinctPlaces(env, uploads)
    requires env.resolve(Stripped(u.name)).Some? && forall t <- paths :: t in v.uploadedPaths
    ensures IsPlaceOf(env, paths, env.resolve(Stripped(u.name)).value) ==> Stripped(u.name) in paths
  {
    forall t | t in paths && env.resolve(t) == env.resolve(Stripped(u.name)) ensures t == Stripped(u.name) {
      if env.resolve(t) == env.resolve(Stripped(u.name)) {
        UploadOfPath(env, v, uploads, start, u, t);
      }
    }
  }

  /** A written path that leads to the place of an upload is that upload's. */
  lemma UploadOfPath(env: Env, v: View, uploads: seq<Upload>, start: Files, u: Upload, t: string)
    requires Progress(env, v, uploads, start) && u in uploads && DistinctPlaces(env, uploads)
    requires t in v.uploadedPaths && env.resolve(t) == env.resolve(Stripped(u.name))
    ensures t == Stripped(u.name)
  {
    var x :| x in uploads && Stripped(x.name) == t;
    SamePlaceSameUpload(env, uploads, u, x);
  }

  lemma SamePlaceSameUpload(env: Env, uploads: seq<Upload>, u: Upload, x: Upload)
    requires DistinctPlaces(env, uploads) && u in uploads && x in uploads
    requires env.resolve(Stripped(u.name)) == env.resolve(Stripped(x.name))
    ensures u == x
  {
    var i :| 0 <= i < |uploads| && uploads[i] == u;
    var j :| 0 <= j < |uploads| && uploads[j] == x;
    assert i == j;
  }

  /** A completed commit whose uploads lead to different places: all of them have converged, but for
      posts whose rewriting failed. */
  lemma DistinctUploadsConverge(env: Env, files: Files, uploads: seq<Upload>, w: View, rewritten: seq<string>,
                                failed: seq<string>)
    requires Lossless(env) && AllResolve(env, uploads) && DistinctPlaces(env, uploads)
    requires Normalises(env, ProcessAll(env, View(files, [], [], []), uploads), w, rewritten, failed)
    ensures forall u <- uploads :: Stripped(u.name) in failed || Converged(env, w, u, files)
  {
    ProgressRun(env, files, uploads, |uploads|);
    assert uploads[..|uploads|] == uploads;
    forall u | u in uploads && Stripped(u.name) !in failed ensures Converged(env, w, u, files) {
      StaysConverged(env, ProcessAll(env, View(files, [], [], []), uploads), w, u, uploads, files, rewritten, failed);
    }
  }

  /** Deletions before the uploads do not matter. */
  lemma ConvergedFrom(env: Env, v: View, u: Upload, start: Files, original: Files)
    requires Converged(env, v, u, start)
    requires forall l :: At(start, l) == At(original, l) || At(start, l) == None
    ensures Converged(env, v, u, original)
  {
  }

  // ----- Two uploads to one place may not

  /** Whatever the files and the uploaded bytes, and whatever normalisation does, a completed commit with
      these upload names converges. With `faults`, the writes of normalisation may fail. */
  ghost predicate AlwaysConverges(env: Env, names: seq<string>, faults: bool) {
    forall files, uploads, w, rewritten, failed ::
      Named(uploads, names) && AllResolve(env, uploads) && (faults || failed == [])
      && Normalises(env, ProcessAll(env, View(files, [], [], []), uploads), w, rewritten, failed) ==>
        forall u <- uploads :: Converged(env, w, u, files)
  }

  ghost predicate Named(uploads: seq<Upload>, names: seq<string>) {
    |uploads| == |names| && forall i :: 0 <= i < |names| ==> uploads[i].name == names[i]
  }

  ghost predicate DistinctNames(env: Env, names: seq<string>) {
    forall i, j :: 0 <= i < j < |names| ==> env.resolve(Stripped(names[i])) != env.resolve(Stripped(names[j]))
  }

  /** All uploads carry the bytes `b`, except that upload `i` carries `c`. */
  function OneDiffers(names: seq<string>, i: nat, b: Bytes, c: Bytes): (uploads: seq<Upload>)
    ensures |uploads| == |names|
    ensures forall k :: 0 <= k < |names| ==> uploads[k] == Upload(names[k], if k == i then c else b)
  {
    seq(|names|, k requires 0 <= k < |names| => Upload(names[k], if k == i then c else b))
  }

  /** Binary uploads are just written: the last one to a place decides, and nothing is reported. */
  lemma {:induction false} BinaryOverwrites(env: Env, uploads: seq<Upload>, n: nat)
    requires n <= |uploads| && AllResolve(env, uploads) && forall u <- uploads :: env.decode(u.data).None?
    ensures var v := ProcessAll(env, View(map[], [], [], []), uploads[..n]);
            && v.toDownload == [] && v.conflicts == []
            && forall k :: 0 <= k < n && (forall m :: k < m < n ==>
                 env.resolve(Stripped(uploads[m].name)) != env.resolve(Stripped(uploads[k].name))) ==>
                 At(v.files, env.resolve(Stripped(uploads[k].name)).value) == Some(uploads[k].data)
  {
    if n > 0 {
      BinaryOverwrites(env, uploads, n - 1);
      assert uploads[..n][..n - 1] == uploads[..n - 1];
      assert uploads[n - 1] in uploads;
    }
  }

  lemma {:induction false} LastOfPlace(env: Env, names: seq<string>, j: nat) returns (k: nat)
    requires j < |names|
    ensures j <= k < |names| && env.resolve(Stripped(names[k])) == env.resolve(Stripped(names[j]))
    ensures forall m :: k < m < |names| ==> env.resolve(Stripped(names[m])) != env.resolve(Stripped(names[k]))
    decreases |names| - j
  {
    if m: nat :| j < m < |names| && env.resolve(Stripped(names[m])) == env.resolve(Stripped(names[j])) {
      k := LastOfPlace(env, names, m);
    } else {
      k := j;
    }
  }

  /** Two uploads to one place, under one path or two: the first one's bytes are lost without notice. */
  lemma SharedPlaceDiverges(env: Env, names: seq<string>, faults: bool, i: nat, j: nat, b: Bytes, c: Bytes)
    requires i < j < |names| && env.resolve(Stripped(names[i])) == env.resolve(Stripped(names[j]))
    requires forall name <- names :: env.resolve(Stripped(name)).Some?
    requires b != c && env.decode(b).None? && env.decode(c).None?
    ensures !AlwaysConverges(env, names, faults)
  {
    var k := LastOfPlace(env, names, j);
    var uploads := OneDiffers(names, i, b, c);
    forall u | u in uploads ensures env.resolve(Stripped(u.name)).Some? && env.decode(u.data).None? {
      var m :| 0 <= m < |uploads| && uploads[m] == u;
      assert names[m] in names;
    }
    BinaryOverwrites(env, uploads, |uploads|);
    assert uploads[..|uploads|] == uploads;
    var v := ProcessAll(env, View(map[], [], [], []), uploads);
    assert At(v.files, env.resolve(Stripped(uploads[k].name)).value) == Some(b);
    assert Named(uploads, names) && Normalises(env, v, v, [], []);
    assert uploads[i] in uploads && !Converged(env, v, uploads[i], map[]);
  }

  /** Text that is uploaded where no file was is written as it is. */
  lemma {:induction false} NewTextIsWritten(env: Env, uploads: seq<Upload>, n: nat, d: Bytes)
    requires Lossless(env) && AllResolve(env, uploads) && DistinctPlaces(env, uploads) && n <= |uploads|
    requires env.decode(d).Some? && forall u <- uploads :: u.data == d
    ensures var v := ProcessAll(env, View(map[], [], [], []), uploads[..n]);
            && v.toDownload == [] && v.conflicts == []
            && (forall k :: 0 <= k < n ==> Stripped(uploads[k].name) in v.uploadedPaths)
            && forall l ::
                 At(v.files, l) == None ||
                 exists k :: 0 <= k < n && env.resolve(Stripped(uploads[k].name)) == Some(l)
  {
    if n > 0 {
      NewTextIsWritten(env, uploads, n - 1, d);
      assert uploads[..n][..n - 1] == uploads[..n - 1];
      var v := ProcessAll(env, View(map[], [], [], []), uploads[..n - 1]);
      var t := Stripped(uploads[n - 1].name);
      assert uploads[n - 1] in uploads;
      assert At(v.files, env.resolve(t).value) == None;
      assert (v.uploadedPaths + [t])[|v.uploadedPaths|] == t;
    }
  }

  /** A post whose rewriting fails: the client keeps its own text, and is not told to download what the failed
      write has left. */
  lemma FailedRewriteDiverges(env: Env, names: seq<string>, i: nat, b: Bytes, d: Bytes)
    requires Lossless(env) && i < |names| && env.isPost(Stripped(names[i])) && DistinctNames(env, names)
    requires forall name <- names :: env.resolve(Stripped(name)).Some?
    requires env.decode(d).Some? && b != d
    ensures !AlwaysConverges(env, names, true)
  {
    var uploads := OneDiffers(names, i, d, d);
    EqualUploads(env, names, i, d);
    NewTextIsWritten(env, uploads, |uploads|, d);
    assert uploads[..|uploads|] == uploads;
    var v := ProcessAll(env, View(map[], [], [], []), uploads);
    var t := Stripped(names[i]);
    FileIsLeft(env, v, t, b);
    assert Named(uploads, names);
    assert uploads[i] in uploads;
    LeftIsNotConverged(env, v, uploads[i], b);
  }

  lemma EqualUploads(env: Env, names: seq<string>, i: nat, d: Bytes)
    requires forall name <- names :: env.resolve(Stripped(name)).Some?
    ensures forall u <- OneDiffers(names, i, d, d) :: env.resolve(Stripped(u.name)).Some? && u.data == d
  {
    forall u | u in OneDiffers(names, i, d, d) ensures env.resolve(Stripped(u.name)).Some? && u.data == d {
      var m :| 0 <= m < |names| && OneDiffers(names, i, d, d)[m] == u;
      assert names[m] in names;
    }
  }

  function LeaveAt(env: Env, v: View, t: string, b: Bytes): View
    requires env.resolve(t).Some?
  {
    v.(files := v.files[env.resolve(t).value := b])
  }

  lemma FileIsLeft(env: Env, v: View, t: string, b: Bytes)
    requires env.resolve(t).Some? && t in v.uploadedPaths && env.isPost(t)
    ensures Normalises(env, v, LeaveAt(env, v, t, b), [], [t])
  {
    assert t in [t] && IsPlaceOf(env, [t], env.resolve(t).value);
  }

  lemma LeftIsNotConverged(env: Env, v: View, u: Upload, b: Bytes)
    requires env.resolve(Stripped(u.name)).Some? && u.data != b && v.toDownload == [] && v.conflicts == []
    ensures !Converged(env, LeaveAt(env, v, Stripped(u.name), b), u, map[])
  {
  }

  /** Exactly when a completed commit always converges: no two uploads lead to the same place, and none is a post if
      normalisation can fail to write; or one leads nowhere, so that no commit completes. `b` and `c` are any two
      byte strings that are no text, and `d` is one that is. */
  lemma AlwaysConvergesIff(env: Env, names: seq<string>, faults: bool, b: Bytes, c: Bytes, d: Bytes)
    requires Lossless(env) && b != c && env.decode(b).None? && env.decode(c).None? && env.decode(d).Some?
    ensures AlwaysConverges(env, names, faults)
            <==> (forall name <- names :: env.resolve(Stripped(name)).Some?) ==>
                   DistinctNames(env, names) && (faults ==> forall name <- names :: !env.isPost(Stripped(name)))
  {
    if exists name <- names :: env.resolve(Stripped(name)).None? {
      NoneComplete(env, names);
    } else if !DistinctNames(env, names) {
      var i: nat, j: nat :| i < j < |names| && env.resolve(Stripped(names[i])) == env.resolve(Stripped(names[j]));
      SharedPlaceDiverges(env, names, faults, i, j, b, c);
    } else if faults && exists name <- names :: env.isPost(Stripped(name)) {
      var name :| name in names && env.isPost(Stripped(name));
      var i :| 0 <= i < |names| && names[i] == name;
      FailedRewriteDiverges(env, names, i, b, d);
    } else {
      DistinctNamesConverge(env, names, faults);
    }
  }

  lemma DistinctNamesConverge(env: Env, names: seq<string>, faults: bool)
    requires Lossless(env) && DistinctNames(env, names)
    requires faults ==> forall name <- names :: !env.isPost(Stripped(name))
    ensures AlwaysConverges(env, names, faults)
  {
    forall files, uploads: seq<Upload>, w, rewritten, failed |
      Named(uploads, names) && AllResolve(env, uploads) && (faults || failed == [])
      && Normalises(env, ProcessAll(env, View(files, [], [], []), uploads), w, rewritten, failed)
      ensures forall u <- uploads :: Converged(env, w, u, files)
    {
      DistinctUploadsConverge(env, files, uploads, w, rewritten, failed);
      forall u | u in uploads ensures Stripped(u.name) !in failed {
        var m :| 0 <= m < |uploads| && uploads[m] == u;
        assert names[m] in names;
      }
    }
  }

  lemma NoneComplete(env: Env, names: seq<string>)
    requires exists name <- names :: env.resolve(Stripped(name)).None?
    ensures forall uploads :: Named(uploads, names) ==> !AllResolve(env, uploads)
  {
    var name :| name in names && env.resolve(Stripped(name)).None?;
    var k :| 0 <= k < |names| && names[k] == name;
    forall uploads | Named(uploads, names) ensures !AllResolve(env, uploads) {
      assert uploads[k] in uploads;
    }
  }
}
