/** Rolling back a sync commit, as a law of the request's paths: when every run is undone. */
module SyncRollback {
  import opened Options
  import opened SyncJournal

  /** The files, and the journal of what they were. */
  datatype Trail = Trail(files: Files, journal: seq<Saved>)

  /** One step of the mutation phase. A deletion may fail to unlink; a write may leave any bytes, the
      ones that were there when a merge raises before it, or no file when it fails. */
  datatype Step = Deletes(path: string, gone: bool) | Writes(key: string, left: Option<Bytes>)

  /** `_remember_original_file`: saves the bytes of a file the first time its key is used. */
  function Remember(t: Trail, key: string, l: Loc): seq<Saved> {
    if HasKey(t.journal, key) then t.journal else t.journal + [Saved(key, At(t.files, l))]
  }

  function Do(resolve: Resolver, t: Trail, step: Step): Trail {
    match step
    case Deletes(path, gone) =>
      var l := Target(resolve, path);
      if l.None? || l.value !in t.files then t
      else Trail(if gone then t.files - {l.value} else t.files, Remember(t, path, l.value))
    case Writes(key, left) =>
      var l := resolve(key);
      if l.None? then t else Trail(Put(t.files, l.value, left), Remember(t, key, l.value))
  }

  function DoAll(resolve: Resolver, t: Trail, steps: seq<Step>): Trail {
    if steps == [] then t else Do(resolve, DoAll(resolve, t, steps[..|steps| - 1]), steps[|steps| - 1])
  }

  lemma DoSnoc(resolve: Resolver, t: Trail, steps: seq<Step>, step: Step)
    ensures DoAll(resolve, t, steps + [step]) == Do(resolve, DoAll(resolve, t, steps), step)
  {
    assert (steps + [step])[..|steps|] == steps;
  }

  /** The request: the deleted paths as given, and the uploaded ones without leading slashes. */
  datatype Request = Request(deleted: seq<string>, keys: seq<string>)

  /** The paths of the request in the order in which they are used. */
  function PathsOf(r: Request): seq<string> {
    r.deleted + r.keys
  }

  /** Step `i` of a run: deletions, then uploads, then any number of normalised uploads. */
  ghost predicate IsStep(resolve: Resolver, r: Request, i: nat, step: Step) {
    if i < |r.deleted| then step.Deletes? && step.path == r.deleted[i] && Target(resolve, step.path).Some?
    else if i < |PathsOf(r)| then step.Writes? && step.key == PathsOf(r)[i] && resolve(step.key).Some?
    else step.Writes? && step.key in r.keys
  }

  /** An upload that leaves no file has failed, and no step follows it. A normalised post may
      be lost in the same way, but that is passed over. */
  ghost predicate GoesOn(r: Request, i: nat, step: Step) {
    |r.deleted| <= i < |PathsOf(r)| && step.Writes? ==> step.left.Some?
  }

  /** The steps of a run of the mutation phase. It may end anywhere, and ends
      at a path that leads nowhere and at an upload that leaves no file. */
  ghost predicate IsRun(resolve: Resolver, r: Request, steps: seq<Step>) {
    && (forall i: nat :: i < |steps| ==> IsStep(resolve, r, i, steps[i]))
    && (forall i: nat :: i < |steps| - 1 ==> GoesOn(r, i, steps[i]))
  }

  /** More steps may follow. */
  ghost predicate IsOngoing(r: Request, steps: seq<Step>) {
    steps != [] ==> GoesOn(r, |steps| - 1, steps[|steps| - 1])
  }

  /** The next step of a run leads from the trail before it to the trail after it. */
  lemma StepTaken(resolve: Resolver, r: Request, start: Files, steps: seq<Step>, step: Step, before: Trail,
                  after: Trail, more: seq<Step>)
    requires IsRun(resolve, r, steps) && IsOngoing(r, steps) && IsStep(resolve, r, |steps|, step)
    requires before == DoAll(resolve, Trail(start, []), steps) && after == Do(resolve, before, step)
    requires more == steps + [step]
    ensures IsRun(resolve, r, more) && after == DoAll(resolve, Trail(start, []), more)
    ensures GoesOn(r, |steps|, step) ==> IsOngoing(r, more)
  {
    DoSnoc(resolve, Trail(start, []), steps, step);
  }

  function RolledBack(resolve: Resolver, t: Trail): Files {
    Restored(resolve, t.files, t.journal)
  }

  /** Whatever the files, and wherever and however a run ends, rolling it back gives the files as they were. */
  ghost predicate AlwaysUndone(resolve: Resolver, r: Request) {
    forall files, steps :: IsRun(resolve, r, steps) ==>
        RolledBack(resolve, DoAll(resolve, Trail(files, []), steps)) == files
  }

  // ----- The condition

  /** All paths up to `i` lead somewhere. */
  ghost predicate IsReached(resolve: Resolver, r: Request, i: nat) {
    i < |PathsOf(r)| && forall j: nat :: j <= i ==> Target(resolve, PathsOf(r)[j]).Some?
  }

  /** Path `f` is the first of those that lead where it does. */
  ghost predicate IsFirst(resolve: Resolver, r: Request, f: nat) {
    IsReached(resolve, r, f) && forall j: nat :: j < f ==>
        Target(resolve, PathsOf(r)[j]) != Target(resolve, PathsOf(r)[f])
  }

  ghost predicate SamePlace(resolve: Resolver, r: Request, i: nat, j: nat)
    requires i < |PathsOf(r)| && j < |PathsOf(r)|
  {
    Target(resolve, PathsOf(r)[i]) == Target(resolve, PathsOf(r)[j])
  }

  /** Path `f` will do to restore its place: it has no leading slash, and all uploads to the place are under it. */
  ghost predicate KeyFits(resolve: Resolver, r: Request, f: nat)
    requires f < |PathsOf(r)|
  {
    && !HasLeadingSlash(PathsOf(r)[f])
    && forall i: nat :: |r.deleted| <= i < |PathsOf(r)| && IsReached(resolve, r, i) && SamePlace(resolve, r, i, f) ==>
         PathsOf(r)[i] == PathsOf(r)[f]
  }

  /** Of the paths that lead to one place, the first has no leading slash, and
      all uploads use that very path. */
  ghost predicate KeysFit(resolve: Resolver, r: Request) {
    forall f: nat :: IsFirst(resolve, r, f) ==> KeyFits(resolve, r, f)
  }

  /** Uploads are journalled under their stripped paths. */
  ghost predicate AreKeys(r: Request) {
    forall k <- r.keys :: !HasLeadingSlash(k)
  }

  lemma StrippedIsItself(path: string)
    requires !HasLeadingSlash(path)
    ensures Stripped(path) == path
  {
  }

  lemma KeyIsPlain(r: Request, i: nat)
    requires AreKeys(r) && |r.deleted| <= i < |PathsOf(r)|
    ensures !HasLeadingSlash(PathsOf(r)[i]) && Stripped(PathsOf(r)[i]) == PathsOf(r)[i] && PathsOf(r)[i] in r.keys
  {
    assert PathsOf(r)[i] == r.keys[i - |r.deleted|] && PathsOf(r)[i] in r.keys;
    StrippedIsItself(PathsOf(r)[i]);
  }

  lemma SlashIsDeletion(r: Request, i: nat)
    requires AreKeys(r) && i < |PathsOf(r)|
    ensures HasLeadingSlash(PathsOf(r)[i]) ==> i < |r.deleted|
  {
    if |r.deleted| <= i {
      KeyIsPlain(r, i);
    }
  }

  // ----- If the paths fit, every run is undone

  /** The first path of its place has been journalled. */
  ghost predicate IsSaved(resolve: Resolver, r: Request, t: Trail, l: Loc, n: nat) {
    exists f: nat :: f < n && IsFirst(resolve, r, f) && Target(resolve, PathsOf(r)[f]) == Some(l)
        && HasKey(t.journal, PathsOf(r)[f])
  }

  ghost predicate IsUntouched(resolve: Resolver, start: Files, t: Trail, l: Loc) {
    At(t.files, l) == At(start, l) && !Covers(resolve, t.journal, l)
  }

  /** After `n` steps: rolling back gives the start; a place is untouched or its first path has been saved;
      the latter if it has been used by an upload, or by a deletion while there was a file. */
  ghost predicate Inv(resolve: Resolver, r: Request, start: Files, t: Trail, n: nat) {
    && RolledBack(resolve, t) == start
    && (forall l :: IsUntouched(resolve, start, t, l) || IsSaved(resolve, r, t, l, n))
    && UsesAreSaved(resolve, r, start, t, n)
    && (n <= |r.deleted| ==> forall l :: l in t.files ==> At(t.files, l) == At(start, l))
  }

  ghost predicate UsesAreSaved(resolve: Resolver, r: Request, start: Files, t: Trail, n: nat) {
    forall j: nat :: j < n && j < |PathsOf(r)| ==> UsedIsSaved(resolve, r, start, t, n, j)
  }

  ghost predicate UsedIsSaved(resolve: Resolver, r: Request, start: Files, t: Trail, n: nat, j: nat)
    requires j < |PathsOf(r)|
  {
    var l := Target(resolve, PathsOf(r)[j]);
    l.Some? && (l.value in start || |r.deleted| <= j ==> IsSaved(resolve, r, t, l.value, n))
  }

  lemma {:induction false} FirstOf(resolve: Resolver, r: Request, i: nat, j: nat) returns (f: nat)
    requires IsReached(resolve, r, i) && j <= i && SamePlace(resolve, r, j, i)
    ensures f <= j && IsFirst(resolve, r, f) && SamePlace(resolve, r, f, i)
    decreases j
  {
    if k: nat :| k < j && Target(resolve, PathsOf(r)[k]) == Target(resolve, PathsOf(r)[j]) {
      f := FirstOf(resolve, r, i, k);
    } else {
      f := j;
    }
  }

  lemma FirstIsUnique(resolve: Resolver, r: Request, f: nat, g: nat)
    requires IsFirst(resolve, r, f) && IsFirst(resolve, r, g) && SamePlace(resolve, r, f, g)
    ensures f == g
  {
  }

  lemma KeyCovers(resolve: Resolver, journal: seq<Saved>, key: string, l: Loc)
    requires HasKey(journal, key) && !HasLeadingSlash(key) && Target(resolve, key) == Some(l)
    ensures Covers(resolve, journal, l)
  {
    StrippedIsItself(key);
  }

  lemma SavedIsCovered(resolve: Resolver, r: Request, t: Trail, l: Loc, n: nat)
    requires KeysFit(resolve, r) && IsSaved(resolve, r, t, l, n)
    ensures Covers(resolve, t.journal, l)
  {
    var f: nat :| f < n && IsFirst(resolve, r, f) && Target(resolve, PathsOf(r)[f]) == Some(l)
        && HasKey(t.journal, PathsOf(r)[f]);
    assert KeyFits(resolve, r, f);
    KeyCovers(resolve, t.journal, PathsOf(r)[f], l);
  }

  /** `u` has at most one more entry than `t`, and that is for place `l`. */
  ghost predicate Extends(resolve: Resolver, t: Trail, u: Trail, l: Loc) {
    || u.journal == t.journal
    || (exists saved :: u.journal == t.journal + [saved] && Target(resolve, saved.key) == Some(l))
  }

  lemma RememberExtends(resolve: Resolver, t: Trail, key: string, l: Loc, files: Files)
    requires Target(resolve, key) == Some(l)
    ensures Extends(resolve, t, Trail(files, Remember(t, key, l)), l) && HasKey(Remember(t, key, l), key)
  {
    var journal := Remember(t, key, l);
    if !HasKey(t.journal, key) {
      assert journal[|t.journal|] in journal;
      assert journal == t.journal + [Saved(key, At(t.files, l))];
    }
  }

  lemma ExtendedKeys(resolve: Resolver, t: Trail, u: Trail, l: Loc, key: string)
    requires Extends(resolve, t, u, l) && HasKey(t.journal, key)
    ensures HasKey(u.journal, key)
  {
    var e :| e in t.journal && e.key == key;
    assert e in u.journal;
  }

  lemma ExtendedSaved(resolve: Resolver, r: Request, t: Trail, u: Trail, l: Loc, x: Loc, n: nat)
    requires Extends(resolve, t, u, l) && IsSaved(resolve, r, t, x, n)
    ensures IsSaved(resolve, r, u, x, n + 1)
  {
    var f: nat :| f < n && IsFirst(resolve, r, f) && Target(resolve, PathsOf(r)[f]) == Some(x)
        && HasKey(t.journal, PathsOf(r)[f]);
    ExtendedKeys(resolve, t, u, l, PathsOf(r)[f]);
  }

  lemma ExtendedCovers(resolve: Resolver, t: Trail, u: Trail, l: Loc, x: Loc)
    requires Extends(resolve, t, u, l) && x != l && !Covers(resolve, t.journal, x)
    ensures !Covers(resolve, u.journal, x)
  {
    forall e | e in u.journal ensures RestoreTarget(resolve, e.key) != Some(x) {
      if e !in t.journal && !HasLeadingSlash(e.key) {
        StrippedIsItself(e.key);
      }
    }
  }

  /** What another place needs is kept by a step at place `l`. */
  lemma OthersKeep(resolve: Resolver, r: Request, start: Files, t: Trail, u: Trail, n: nat, l: Loc, x: Loc)
    requires IsUntouched(resolve, start, t, x) || IsSaved(resolve, r, t, x, n)
    requires Extends(resolve, t, u, l) && x != l && At(u.files, x) == At(t.files, x)
    ensures IsUntouched(resolve, start, u, x) || IsSaved(resolve, r, u, x, n + 1)
  {
    if IsSaved(resolve, r, t, x, n) {
      ExtendedSaved(resolve, r, t, u, l, x, n);
    } else {
      ExtendedCovers(resolve, t, u, l, x);
    }
  }

  lemma UsedStaysSaved(resolve: Resolver, r: Request, start: Files, t: Trail, u: Trail, n: nat, l: Loc, j: nat)
    requires j < |PathsOf(r)| && UsedIsSaved(resolve, r, start, t, n, j) && Extends(resolve, t, u, l)
    ensures UsedIsSaved(resolve, r, start, u, n + 1, j)
  {
    var x := Target(resolve, PathsOf(r)[j]).value;
    if IsSaved(resolve, r, t, x, n) {
      ExtendedSaved(resolve, r, t, u, l, x, n);
    }
  }

  lemma AllPlacesKeep(resolve: Resolver, r: Request, start: Files, t: Trail, u: Trail, n: nat, l: Loc)
    requires forall x :: IsUntouched(resolve, start, t, x) || IsSaved(resolve, r, t, x, n)
    requires Extends(resolve, t, u, l) && IsSaved(resolve, r, u, l, n + 1)
    requires forall x :: x != l ==> At(u.files, x) == At(t.files, x)
    ensures forall x :: IsUntouched(resolve, start, u, x) || IsSaved(resolve, r, u, x, n + 1)
  {
    forall x ensures IsUntouched(resolve, start, u, x) || IsSaved(resolve, r, u, x, n + 1) {
      if x != l {
        OthersKeep(resolve, r, start, t, u, n, l, x);
      }
    }
  }

  lemma AllUsesKeep(resolve: Resolver, r: Request, start: Files, t: Trail, u: Trail, n: nat, l: Loc)
    requires UsesAreSaved(resolve, r, start, t, n)
    requires Extends(resolve, t, u, l) && IsSaved(resolve, r, u, l, n + 1)
    requires n < |PathsOf(r)| ==> Target(resolve, PathsOf(r)[n]) == Some(l)
    ensures UsesAreSaved(resolve, r, start, u, n + 1)
  {
    var m := n + 1;
    forall j: nat | j < m && j < |PathsOf(r)| ensures UsedIsSaved(resolve, r, start, u, m, j) {
      if j < n {
        UsedStaysSaved(resolve, r, start, t, u, n, l, j);
      }
    }
  }

  /** A step at a place whose first path is then saved keeps the invariant. */
  lemma PlaceKeeps(resolve: Resolver, r: Request, start: Files, t: Trail, u: Trail, n: nat, l: Loc)
    requires Inv(resolve, r, start, t, n) && RolledBack(resolve, u) == start
    requires Extends(resolve, t, u, l) && IsSaved(resolve, r, u, l, n + 1)
    requires forall x :: x != l ==> At(u.files, x) == At(t.files, x)
    requires n < |PathsOf(r)| ==> Target(resolve, PathsOf(r)[n]) == Some(l)
    requires n < |r.deleted| ==> At(u.files, l) == None || At(u.files, l) == At(start, l)
    ensures Inv(resolve, r, start, u, n + 1)
  {
    AllPlacesKeep(resolve, r, start, t, u, n, l);
    AllUsesKeep(resolve, r, start, t, u, n, l);
    FilesStayOld(r, start, t, u, n, l);
  }

  lemma FilesStayOld(r: Request, start: Files, t: Trail, u: Trail, n: nat, l: Loc)
    requires n <= |r.deleted| ==> forall x :: x in t.files ==> At(t.files, x) == At(start, x)
    requires forall x :: x != l ==> At(u.files, x) == At(t.files, x)
    requires n < |r.deleted| ==> At(u.files, l) == None || At(u.files, l) == At(start, l)
    ensures n + 1 <= |r.deleted| ==> forall x :: x in u.files ==> At(u.files, x) == At(start, x)
  {
    forall x | n < |r.deleted| && x in u.files ensures At(u.files, x) == At(start, x) {
      assert At(u.files, x).Some?;
      if x != l {
        assert x in t.files;
      }
    }
  }

  /** A deletion that finds no file changes nothing: the file was not there at the start, or is saved. */
  lemma SkipKeeps(resolve: Resolver, r: Request, start: Files, t: Trail, n: nat)
    requires Inv(resolve, r, start, t, n) && n < |r.deleted|
    requires var l := Target(resolve, PathsOf(r)[n]); l.Some? && l.value !in t.files
    ensures Inv(resolve, r, start, t, n + 1)
  {
    var l, m := Target(resolve, PathsOf(r)[n]).value, n + 1;
    forall x ensures IsUntouched(resolve, start, t, x) || IsSaved(resolve, r, t, x, m) {
      if IsSaved(resolve, r, t, x, n) {
        SavedLater(resolve, r, t, x, n);
      }
    }
    forall j: nat | j < m && j < |PathsOf(r)| ensures UsedIsSaved(resolve, r, start, t, m, j) {
      SkipUses(resolve, r, start, t, n, j);
    }
  }

  lemma SkipUses(resolve: Resolver, r: Request, start: Files, t: Trail, n: nat, j: nat)
    requires Inv(resolve, r, start, t, n) && n < |r.deleted| && j <= n
    requires var l := Target(resolve, PathsOf(r)[n]); l.Some? && l.value !in t.files
    ensures UsedIsSaved(resolve, r, start, t, n + 1, j)
  {
    if j < n {
      assert UsedIsSaved(resolve, r, start, t, n, j);
    }
    var x := Target(resolve, PathsOf(r)[j]).value;
    assert j == n ==> At(t.files, x) == None;
    if IsSaved(resolve, r, t, x, n) {
      SavedLater(resolve, r, t, x, n);
    }
  }

  lemma SavedLater(resolve: Resolver, r: Request, t: Trail, x: Loc, n: nat)
    requires IsSaved(resolve, r, t, x, n)
    ensures IsSaved(resolve, r, t, x, n + 1)
  {
    var f: nat :| f < n && IsFirst(resolve, r, f) && Target(resolve, PathsOf(r)[f]) == Some(x)
        && HasKey(t.journal, PathsOf(r)[f]);
  }

  /** Saving bytes that rolling back gives anyway, and then changing a place that is covered. */
  lemma SaveAndChange(resolve: Resolver, start: Files, t: Trail, key: string, l: Loc, files: Files)
    requires RolledBack(resolve, t) == start && Target(resolve, key) == Some(l)
    requires HasKey(t.journal, key) || At(t.files, l) == At(start, l)
    requires forall x :: x != l ==> At(files, x) == At(t.files, x)
    requires files == t.files || Covers(resolve, Remember(t, key, l), l)
    ensures RolledBack(resolve, Trail(files, Remember(t, key, l))) == start
  {
    var journal := Remember(t, key, l);
    if !HasKey(t.journal, key) {
      if !HasLeadingSlash(key) {
        StrippedIsItself(key);
      }
      EntryIsHarmlessIff(resolve, t.files, t.journal, Saved(key, At(t.files, l)));
    }
    CoveredChange(resolve, t.files, files, journal);
  }

  lemma DeleteKeeps(resolve: Resolver, r: Request, start: Files, t: Trail, n: nat, gone: bool)
    requires KeysFit(resolve, r) && Inv(resolve, r, start, t, n) && n < |r.deleted| && IsReached(resolve, r, n)
    ensures Inv(resolve, r, start, Do(resolve, t, Deletes(PathsOf(r)[n], gone)), n + 1)
  {
    var path := PathsOf(r)[n];
    var l := Target(resolve, path).value;
    if l !in t.files {
      SkipKeeps(resolve, r, start, t, n);
    } else {
      var u := Do(resolve, t, Deletes(path, gone));
      assert At(t.files, l) == At(start, l);
      RememberExtends(resolve, t, path, l, u.files);
      DeletedIsSaved(resolve, r, start, t, u, n, l);
      SavedIsCovered(resolve, r, u, l, n + 1);
      SaveAndChange(resolve, start, t, path, l, u.files);
      PlaceKeeps(resolve, r, start, t, u, n, l);
    }
  }

  /** After a deletion of a file that was there, the first path of its place is saved. */
  lemma DeletedIsSaved(resolve: Resolver, r: Request, start: Files, t: Trail, u: Trail, n: nat, l: Loc)
    requires Inv(resolve, r, start, t, n) && n < |r.deleted| && IsReached(resolve, r, n)
    requires Target(resolve, PathsOf(r)[n]) == Some(l) && l in start
    requires Extends(resolve, t, u, l) && HasKey(u.journal, PathsOf(r)[n])
    ensures IsSaved(resolve, r, u, l, n + 1)
  {
    var f := FirstOf(resolve, r, n, n);
    if f < n {
      assert UsedIsSaved(resolve, r, start, t, n, f);
      ExtendedSaved(resolve, r, t, u, l, l, n);
    }
  }

  /** An upload's key is the first path of its place. */
  lemma UploadKeyIsFirst(resolve: Resolver, r: Request, i: nat, f: nat)
    requires KeysFit(resolve, r) && |r.deleted| <= i && IsReached(resolve, r, i)
    requires IsFirst(resolve, r, f) && SamePlace(resolve, r, i, f)
    ensures PathsOf(r)[i] == PathsOf(r)[f]
  {
    assert KeyFits(resolve, r, f);
  }

  lemma WriteKeeps(resolve: Resolver, r: Request, start: Files, t: Trail, n: nat, left: Option<Bytes>)
    requires KeysFit(resolve, r) && AreKeys(r) && Inv(resolve, r, start, t, n)
    requires |r.deleted| <= n < |PathsOf(r)| && IsReached(resolve, r, n)
    ensures Inv(resolve, r, start, Do(resolve, t, Writes(PathsOf(r)[n], left)), n + 1)
  {
    var key := PathsOf(r)[n];
    KeyIsPlain(r, n);
    var l := Target(resolve, key).value;
    var u := Do(resolve, t, Writes(key, left));
    var f := FirstOf(resolve, r, n, n);
    UploadKeyIsFirst(resolve, r, n, f);
    RememberExtends(resolve, t, key, l, u.files);
    KeyCovers(resolve, u.journal, key, l);
    if IsSaved(resolve, r, t, l, n) {
      var g: nat :| g < n && IsFirst(resolve, r, g) && Target(resolve, PathsOf(r)[g]) == Some(l)
          && HasKey(t.journal, PathsOf(r)[g]);
      FirstIsUnique(resolve, r, f, g);
    }
    SaveAndChange(resolve, start, t, key, l, u.files);
    PlaceKeeps(resolve, r, start, t, u, n, l);
  }

  lemma NormaliseKeeps(resolve: Resolver, r: Request, start: Files, t: Trail, n: nat, key: string, left: Option<Bytes>)
    requires KeysFit(resolve, r) && AreKeys(r) && Inv(resolve, r, start, t, n) && key in r.keys
    requires |PathsOf(r)| <= n && forall i: nat :: i < |PathsOf(r)| ==> IsReached(resolve, r, i)
    ensures Inv(resolve, r, start, Do(resolve, t, Writes(key, left)), n + 1)
  {
    var j :| 0 <= j < |r.keys| && r.keys[j] == key;
    var i := |r.deleted| + j;
    assert PathsOf(r)[i] == key && IsReached(resolve, r, i);
    StrippedIsItself(key);
    var l := Target(resolve, key).value;
    var u := Do(resolve, t, Writes(key, left));
    assert UsedIsSaved(resolve, r, start, t, n, i);
    var f: nat :| f < n && IsFirst(resolve, r, f) && Target(resolve, PathsOf(r)[f]) == Some(l)
        && HasKey(t.journal, PathsOf(r)[f]);
    UploadKeyIsFirst(resolve, r, i, f);
    KeyCovers(resolve, u.journal, key, l);
    SaveAndChange(resolve, start, t, key, l, u.files);
    ExtendedSaved(resolve, r, t, u, l, l, n);
    PlaceKeeps(resolve, r, start, t, u, n, l);
  }

  lemma RunReaches(resolve: Resolver, r: Request, steps: seq<Step>, i: nat)
    requires IsRun(resolve, r, steps) && AreKeys(r) && i < |steps| && i < |PathsOf(r)|
    ensures IsReached(resolve, r, i)
  {
    forall j: nat | j <= i ensures Target(resolve, PathsOf(r)[j]).Some? {
      assert IsStep(resolve, r, j, steps[j]);
      if |r.deleted| <= j {
        KeyIsPlain(r, j);
      }
    }
  }

  lemma StepKeeps(resolve: Resolver, r: Request, start: Files, t: Trail, steps: seq<Step>, n: nat)
    requires KeysFit(resolve, r) && AreKeys(r) && IsRun(resolve, r, steps) && n < |steps|
             && Inv(resolve, r, start, t, n)
    ensures Inv(resolve, r, start, Do(resolve, t, steps[n]), n + 1)
  {
    assert IsStep(resolve, r, n, steps[n]);
    if n < |PathsOf(r)| {
      RunReaches(resolve, r, steps, n);
      if n < |r.deleted| {
        DeleteKeeps(resolve, r, start, t, n, steps[n].gone);
      } else {
        WriteKeeps(resolve, r, start, t, n, steps[n].left);
      }
    } else {
      forall i: nat | i < |PathsOf(r)| ensures IsReached(resolve, r, i) {
        RunReaches(resolve, r, steps, i);
      }
      NormaliseKeeps(resolve, r, start, t, n, steps[n].key, steps[n].left);
    }
  }

  lemma {:induction false} RunKeeps(resolve: Resolver, r: Request, start: Files, steps: seq<Step>, n: nat)
    requires KeysFit(resolve, r) && AreKeys(r) && IsRun(resolve, r, steps) && n <= |steps|
    ensures Inv(resolve, r, start, DoAll(resolve, Trail(start, []), steps[..n]), n)
  {
    if n == 0 {
      assert Restored(resolve, start, []) == start;
    } else {
      RunKeeps(resolve, r, start, steps, n - 1);
      assert steps[..n][..n - 1] == steps[..n - 1];
      StepKeeps(resolve, r, start, DoAll(resolve, Trail(start, []), steps[..n - 1]), steps, n - 1);
    }
  }

  /** If the paths fit, rolling back any run gives the files as they were. */
  lemma FittingRunsAreUndone(resolve: Resolver, r: Request, start: Files, steps: seq<Step>)
    requires KeysFit(resolve, r) && AreKeys(r) && IsRun(resolve, r, steps)
    ensures RolledBack(resolve, DoAll(resolve, Trail(start, []), steps)) == start
  {
    RunKeeps(resolve, r, start, steps, |steps|);
    assert steps[..|steps|] == steps;
  }

  // ----- If they do not fit, some run is not

  const OLD: Bytes := []

  const NEW: Bytes := [0]

  /** The run in which all goes well: every file is deleted, and every upload leaves its bytes. */
  function PlainStep(r: Request, i: nat): Step
    requires i < |PathsOf(r)|
  {
    if i < |r.deleted| then Deletes(PathsOf(r)[i], true) else Writes(PathsOf(r)[i], Some(NEW))
  }

  function PlainRun(r: Request, n: nat): (steps: seq<Step>)
    requires n <= |PathsOf(r)|
    ensures |steps| == n && forall i :: 0 <= i < n ==> steps[i] == PlainStep(r, i)
  {
    seq(n, i requires 0 <= i < n => PlainStep(r, i))
  }

  /** There is one file at the start if its place is deleted first, and none otherwise. */
  function PlainStart(r: Request, f: nat, l: Loc): Files {
    if f < |r.deleted| then map[l := OLD] else map[]
  }

  /** After `n` steps of that run: the place of path `f`, its first one, is as at the start until that path is used, and
      differs from then on; only that path and uploads have been journalled. */
  ghost predicate PlainState(r: Request, f: nat, l: Loc, t: Trail, n: nat)
    requires n <= |PathsOf(r)|
  {
    && (n <= |r.deleted| ==> t.files == if n <= f then PlainStart(r, f, l) else map[])
    && (At(t.files, l) == At(PlainStart(r, f, l), l) <==> n <= f)
    && (n <= f < |r.deleted| ==> t.journal == [])
    && forall e <- t.journal :: exists j: nat :: j < n && e.key == PathsOf(r)[j] && (j == f || |r.deleted| <= j)
  }

  lemma RememberPlain(r: Request, f: nat, t: Trail, l: Loc, n: nat)
    requires n < |PathsOf(r)| && (n == f || |r.deleted| <= n)
    requires forall e <- t.journal :: exists j: nat :: j < n && e.key == PathsOf(r)[j] && (j == f || |r.deleted| <= j)
    ensures forall e <- Remember(t, PathsOf(r)[n], l) ::
              exists j: nat :: j < n + 1 && e.key == PathsOf(r)[j] && (j == f || |r.deleted| <= j)
  {
    forall e | e in Remember(t, PathsOf(r)[n], l)
      ensures exists j: nat :: j < n + 1 && e.key == PathsOf(r)[j] && (j == f || |r.deleted| <= j)
    {
      if e in t.journal {
        var j: nat :| j < n && e.key == PathsOf(r)[j] && (j == f || |r.deleted| <= j);
      } else {
        assert e.key == PathsOf(r)[n];
      }
    }
  }

  lemma PlainUploadKeeps(resolve: Resolver, r: Request, f: nat, l: Loc, t: Trail, n: nat)
    requires AreKeys(r) && IsFirst(resolve, r, f) && Target(resolve, PathsOf(r)[f]) == Some(l)
    requires |r.deleted| <= n < |PathsOf(r)| && IsReached(resolve, r, n) && PlainState(r, f, l, t, n)
    ensures PlainState(r, f, l, Do(resolve, t, PlainStep(r, n)), n + 1)
  {
    var x := Target(resolve, PathsOf(r)[n]).value;
    assert n < f ==> x != l;
    KeyIsPlain(r, n);
    RememberPlain(r, f, t, x, n);
  }

  lemma PlainDeletionKeeps(resolve: Resolver, r: Request, f: nat, l: Loc, t: Trail, n: nat)
    requires IsFirst(resolve, r, f) && Target(resolve, PathsOf(r)[f]) == Some(l)
    requires n < |r.deleted| && IsReached(resolve, r, n) && PlainState(r, f, l, t, n)
    ensures PlainState(r, f, l, Do(resolve, t, PlainStep(r, n)), n + 1)
  {
    var x := Target(resolve, PathsOf(r)[n]).value;
    assert n < f ==> x != l;
    if x in t.files {
      RememberPlain(r, f, t, x, n);
      assert map[l := OLD] - {l} == map[];
    } else {
      forall e | e in t.journal
        ensures exists j: nat :: j < n + 1 && e.key == PathsOf(r)[j] && (j == f || |r.deleted| <= j)
      {
        var j: nat :| j < n && e.key == PathsOf(r)[j] && (j == f || |r.deleted| <= j);
      }
    }
  }

  lemma PlainRunSnoc(resolve: Resolver, r: Request, start: Trail, n: nat)
    requires n < |PathsOf(r)|
    ensures DoAll(resolve, start, PlainRun(r, n + 1))
              == Do(resolve, DoAll(resolve, start, PlainRun(r, n)), PlainStep(r, n))
  {
    assert PlainRun(r, n + 1) == PlainRun(r, n) + [PlainStep(r, n)];
    DoSnoc(resolve, start, PlainRun(r, n), PlainStep(r, n));
  }

  lemma {:induction false} PlainRunKeeps(resolve: Resolver, r: Request, f: nat, l: Loc, n: nat)
    requires AreKeys(r) && IsFirst(resolve, r, f) && Target(resolve, PathsOf(r)[f]) == Some(l)
    requires n <= |PathsOf(r)| && (n > 0 ==> IsReached(resolve, r, n - 1))
    ensures PlainState(r, f, l, DoAll(resolve, Trail(PlainStart(r, f, l), []), PlainRun(r, n)), n)
  {
    var start := Trail(PlainStart(r, f, l), []);
    if n > 0 {
      PlainRunKeeps(resolve, r, f, l, n - 1);
      PlainRunSnoc(resolve, r, start, n - 1);
      var t := DoAll(resolve, start, PlainRun(r, n - 1));
      if n - 1 < |r.deleted| {
        PlainDeletionKeeps(resolve, r, f, l, t, n - 1);
      } else {
        PlainUploadKeeps(resolve, r, f, l, t, n - 1);
      }
    }
  }

  lemma PlainIsRun(resolve: Resolver, r: Request, n: nat)
    requires AreKeys(r) && 0 < n <= |PathsOf(r)| && IsReached(resolve, r, n - 1)
    ensures IsRun(resolve, r, PlainRun(r, n))
  {
    forall i: nat | i < n ensures IsStep(resolve, r, i, PlainStep(r, i)) {
      assert Target(resolve, PathsOf(r)[i]).Some?;
      if |r.deleted| <= i {
        KeyIsPlain(r, i);
      }
    }
  }

  /** A first path with a leading slash: the file it deletes is journalled where restoring does not find it. */
  lemma SlashedDeletionIsLost(resolve: Resolver, r: Request, f: nat)
    requires AreKeys(r) && IsFirst(resolve, r, f) && HasLeadingSlash(PathsOf(r)[f])
    ensures !AlwaysUndone(resolve, r)
  {
    var l := Target(resolve, PathsOf(r)[f]).value;
    SlashIsDeletion(r, f);
    var start := Trail(PlainStart(r, f, l), []);
    PlainRunKeeps(resolve, r, f, l, f);
    PlainIsRun(resolve, r, f + 1);
    PlainRunSnoc(resolve, r, start, f);
    var u := DoAll(resolve, start, PlainRun(r, f + 1));
    assert map[l := OLD] - {l} == map[];
    assert u == Trail(map[], [Saved(PathsOf(r)[f], Some(OLD))]);
    RestoredSnoc(resolve, u.files, [], u.journal[0]);
    assert [] + u.journal == u.journal;
    assert RolledBack(resolve, u) == map[] && l in start.files;
  }

  /** The first upload to a place under another key than its first path: `i` is the first one. */
  lemma {:induction false} FirstMisfit(resolve: Resolver, r: Request, f: nat, i: nat) returns (k: nat)
    requires IsFirst(resolve, r, f) && |r.deleted| <= i && IsReached(resolve, r, i)
    requires SamePlace(resolve, r, i, f) && PathsOf(r)[i] != PathsOf(r)[f]
    ensures |r.deleted| <= k && IsReached(resolve, r, k) && SamePlace(resolve, r, k, f)
              && PathsOf(r)[k] != PathsOf(r)[f]
    ensures forall j: nat :: |r.deleted| <= j < k && SamePlace(resolve, r, j, f) ==> PathsOf(r)[j] == PathsOf(r)[f]
    decreases i
  {
    if j: nat :| |r.deleted| <= j < i && SamePlace(resolve, r, j, f) && PathsOf(r)[j] != PathsOf(r)[f] {
      k := FirstMisfit(resolve, r, f, j);
    } else {
      k := i;
    }
  }

  /** An upload under a second key saves what the request itself has made of the file. */
  lemma SecondKeyIsWrong(resolve: Resolver, r: Request, f: nat, i: nat)
    requires AreKeys(r) && IsFirst(resolve, r, f) && |r.deleted| <= i && IsReached(resolve, r, i)
    requires SamePlace(resolve, r, i, f) && PathsOf(r)[i] != PathsOf(r)[f]
    ensures !AlwaysUndone(resolve, r)
  {
    var k := FirstMisfit(resolve, r, f, i);
    var l := Target(resolve, PathsOf(r)[f]).value;
    assert f < k;
    var start := Trail(PlainStart(r, f, l), []);
    var t := DoAll(resolve, start, PlainRun(r, k));
    PlainRunKeeps(resolve, r, f, l, k);
    PlainIsRun(resolve, r, k + 1);
    PlainRunSnoc(resolve, r, start, k);
    NewKey(resolve, r, f, l, t, k);
    LastEntryDecides(resolve, r, l, t, k);
    assert At(RolledBack(resolve, DoAll(resolve, start, PlainRun(r, k + 1))), l) != At(start.files, l);
  }

  lemma NewKey(resolve: Resolver, r: Request, f: nat, l: Loc, t: Trail, k: nat)
    requires k < |PathsOf(r)| && f < k && PlainState(r, f, l, t, k)
    requires |r.deleted| <= k && SamePlace(resolve, r, k, f) && PathsOf(r)[k] != PathsOf(r)[f]
    requires forall j: nat :: |r.deleted| <= j < k && SamePlace(resolve, r, j, f) ==> PathsOf(r)[j] == PathsOf(r)[f]
    ensures !HasKey(t.journal, PathsOf(r)[k])
  {
    forall e | e in t.journal ensures e.key != PathsOf(r)[k] {
      var j: nat :| j < k && e.key == PathsOf(r)[j] && (j == f || |r.deleted| <= j);
    }
  }

  /** The entry made last is restored last: it decides. */
  lemma LastEntryDecides(resolve: Resolver, r: Request, l: Loc, t: Trail, k: nat)
    requires AreKeys(r) && |r.deleted| <= k < |PathsOf(r)|
    requires Target(resolve, PathsOf(r)[k]) == Some(l) && !HasKey(t.journal, PathsOf(r)[k])
    ensures At(RolledBack(resolve, Do(resolve, t, PlainStep(r, k))), l) == At(t.files, l)
  {
    var key := PathsOf(r)[k];
    KeyIsPlain(r, k);
    var u := Do(resolve, t, PlainStep(r, k));
    RestoredSnoc(resolve, u.files, t.journal, Saved(key, At(t.files, l)));
  }

  /** Exactly when rolling back a commit always works: of the paths that lead to one place, the first has no
      leading slash, and all uploads to the place are under that very path. */
  lemma AlwaysUndoneIff(resolve: Resolver, r: Request)
    requires AreKeys(r)
    ensures AlwaysUndone(resolve, r) <==> KeysFit(resolve, r)
  {
    if KeysFit(resolve, r) {
      forall files, steps | IsRun(resolve, r, steps)
        ensures RolledBack(resolve, DoAll(resolve, Trail(files, []), steps)) == files
      {
        FittingRunsAreUndone(resolve, r, files, steps);
      }
    } else {
      var f: nat :| IsFirst(resolve, r, f) && !KeyFits(resolve, r, f);
      if HasLeadingSlash(PathsOf(r)[f]) {
        SlashedDeletionIsLost(resolve, r, f);
      } else {
        var i: nat :| |r.deleted| <= i < |PathsOf(r)| && IsReached(resolve, r, i) && SamePlace(resolve, r, i, f)
                      && PathsOf(r)[i] != PathsOf(r)[f];
        SecondKeyIsWrong(resolve, r, f, i);
      }
    }
  }

  /** Two uploads to one file under two spellings of its path, both new: after
      a rejection, the first one's bytes stay. */
  lemma AliasedUploads(resolve: Resolver, l: Loc, first: Bytes, second: Bytes)
    requires resolve("posts/a/index.md") == Some(l) && resolve("posts/a//index.md") == Some(l)
    ensures var steps := [Writes("posts/a/index.md", Some(first)), Writes("posts/a//index.md", Some(second))];
            && IsRun(resolve, Request([], ["posts/a/index.md", "posts/a//index.md"]), steps)
            && RolledBack(resolve, DoAll(resolve, Trail(map[], []), steps)) == map[l := first]
  {
    var a, b := "posts/a/index.md", "posts/a//index.md";
    assert a[8] != b[8];
    AliasedWrites(resolve, a, b, l, first, second);
  }

  lemma AliasedWrites(resolve: Resolver, a: string, b: string, l: Loc, first: Bytes, second: Bytes)
    requires a != b && !HasLeadingSlash(a) && !HasLeadingSlash(b) && resolve(a) == Some(l) && resolve(b) == Some(l)
    ensures var steps := [Writes(a, Some(first)), Writes(b, Some(second))];
            && IsRun(resolve, Request([], [a, b]), steps)
            && RolledBack(resolve, DoAll(resolve, Trail(map[], []), steps)) == map[l := first]
  {
    TwoSteps(resolve, Trail(map[], []), Writes(a, Some(first)), Writes(b, Some(second)));
    AliasedTrail(resolve, a, b, l, first, second);
    LastOfTwo(resolve, a, b, l, first, second);
  }

  lemma AliasedTrail(resolve: Resolver, a: string, b: string, l: Loc, first: Bytes, second: Bytes)
    requires a != b && resolve(a) == Some(l) && resolve(b) == Some(l)
    ensures Do(resolve, Do(resolve, Trail(map[], []), Writes(a, Some(first))), Writes(b, Some(second)))
            == Trail(map[l := second], [Saved(a, None)] + [Saved(b, Some(first))])
  {
    var t := Trail(map[l := first], [Saved(a, None)]);
    assert [] + [Saved(a, None)] == t.journal && map[][l := first] == t.files;
    assert Do(resolve, Trail(map[], []), Writes(a, Some(first))) == t;
    assert !HasKey(t.journal, b);
  }

  lemma LastOfTwo(resolve: Resolver, a: string, b: string, l: Loc, first: Bytes, second: Bytes)
    requires !HasLeadingSlash(a) && !HasLeadingSlash(b) && resolve(a) == Some(l) && resolve(b) == Some(l)
    ensures Restored(resolve, map[l := second], [Saved(a, None)] + [Saved(b, Some(first))]) == map[l := first]
  {
    RestoredSnoc(resolve, map[l := second], [Saved(a, None)], Saved(b, Some(first)));
    RestoredSnoc(resolve, map[l := second], [], Saved(a, None));
    assert [] + [Saved(a, None)] == [Saved(a, None)];
  }

  lemma TwoSteps(resolve: Resolver, t: Trail, a: Step, b: Step)
    ensures DoAll(resolve, t, [a, b]) == Do(resolve, Do(resolve, t, a), b)
  {
    DoSnoc(resolve, t, [], a);
    DoSnoc(resolve, t, [a], b);
    assert [] + [a] == [a] && [a] + [b] == [a, b];
  }
}
