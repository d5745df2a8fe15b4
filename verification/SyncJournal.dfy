/** The undo journal of a sync commit: what rolling back makes of a changed file map. */
module SyncJournal {
  import opened Options

  type Bytes = seq<bv8>

  /** A place in the content directory, after resolution. */
  datatype Loc = Loc(text: string)

  type Files = map<Loc, Bytes>

  /** The bytes of a file before it was touched, under the key it is restored by. */
  datatype Saved = Saved(key: string, bytes: Option<Bytes>)

  /** Where a path without leading slashes leads, if sync may use it at all. */
  type Resolver = string -> Option<Loc>

  predicate HasLeadingSlash(path: string) {
    path != "" && path[0] == '/'
  }

  /** `path.lstrip("/")`. */
  function Stripped(path: string): (r: string)
    ensures !HasLeadingSlash(r)
    ensures !HasLeadingSlash(path) ==> r == path
  {
    if HasLeadingSlash(path) then Stripped(path[1..]) else path
  }

  /** Where a request's path leads: leading slashes are ignored. */
  function Target(resolve: Resolver, path: string): Option<Loc> {
    resolve(Stripped(path))
  }

  /** Where restoring under `key` writes. An absolute key leads out of the content directory. */
  function RestoreTarget(resolve: Resolver, key: string): Option<Loc> {
    if HasLeadingSlash(key) then None else resolve(key)
  }

  function At(files: Files, l: Loc): Option<Bytes> {
    if l in files then Some(files[l]) else None
  }

  function Put(files: Files, l: Loc, bytes: Option<Bytes>): Files {
    if bytes.Some? then files[l := bytes.value] else files - {l}
  }

  function RestoreOne(resolve: Resolver, files: Files, saved: Saved): Files {
    var l := RestoreTarget(resolve, saved.key);
    if l.Some? then Put(files, l.value, saved.bytes) else files
  }

  /** The files after all entries have been restored, in the order they were made. */
  function Restored(resolve: Resolver, files: Files, journal: seq<Saved>): Files {
    if journal == [] then files
    else RestoreOne(resolve, Restored(resolve, files, journal[..|journal| - 1]), journal[|journal| - 1])
  }

  ghost predicate Covers(resolve: Resolver, journal: seq<Saved>, l: Loc) {
    exists e <- journal :: RestoreTarget(resolve, e.key) == Some(l)
  }

  predicate HasKey(journal: seq<Saved>, key: string) {
    exists e <- journal :: e.key == key
  }

  lemma SameFiles(a: Files, b: Files)
    requires forall l :: At(a, l) == At(b, l)
    ensures a == b
  {
    forall l | l in a ensures l in b && a[l] == b[l] {
      assert At(a, l) == At(b, l);
    }
    forall l | l in b ensures l in a {
      assert At(a, l) == At(b, l);
    }
  }

  /** Restoring gives a place the same bytes, whatever was there, if the journal covers it, and
      leaves it alone otherwise. */
  lemma {:induction false} RestoredAt(resolve: Resolver, a: Files, b: Files, journal: seq<Saved>, l: Loc)
    ensures Covers(resolve, journal, l) ==> At(Restored(resolve, a, journal), l) == At(Restored(resolve, b, journal), l)
    ensures !Covers(resolve, journal, l) ==> At(Restored(resolve, a, journal), l) == At(a, l)
  {
    if journal != [] {
      var front, last := journal[..|journal| - 1], journal[|journal| - 1];
      RestoredAt(resolve, a, b, front, l);
      assert last in journal;
      if Covers(resolve, journal, l) && RestoreTarget(resolve, last.key) != Some(l) {
        var e :| e in journal && RestoreTarget(resolve, e.key) == Some(l);
        assert e in front;
      }
      if Covers(resolve, front, l) {
        var e :| e in front && RestoreTarget(resolve, e.key) == Some(l);
        assert e in journal;
      }
    }
  }

  /** Changing places that the journal covers does not change what restoring gives. */
  lemma CoveredChange(resolve: Resolver, a: Files, b: Files, journal: seq<Saved>)
    requires forall l :: At(a, l) == At(b, l) || Covers(resolve, journal, l)
    ensures Restored(resolve, a, journal) == Restored(resolve, b, journal)
  {
    forall l ensures At(Restored(resolve, a, journal), l) == At(Restored(resolve, b, journal), l) {
      RestoredAt(resolve, a, b, journal, l);
      RestoredAt(resolve, b, a, journal, l);
    }
    SameFiles(Restored(resolve, a, journal), Restored(resolve, b, journal));
  }

  lemma RestoredSnoc(resolve: Resolver, files: Files, journal: seq<Saved>, saved: Saved)
    ensures Restored(resolve, files, journal + [saved]) == RestoreOne(resolve, Restored(resolve, files, journal), saved)
  {
    assert (journal + [saved])[..|journal|] == journal;
  }

  /** One more entry leaves the outcome of restoring as it is exactly if the bytes it saves are
      those that restoring would give its place anyway. In particular, an entry made for a place that
      was already changed under another key spoils the rollback. */
  lemma EntryIsHarmlessIff(resolve: Resolver, files: Files, journal: seq<Saved>, saved: Saved)
    ensures Restored(resolve, files, journal + [saved]) == Restored(resolve, files, journal)
            <==> (RestoreTarget(resolve, saved.key).Some? ==>
                    saved.bytes == At(Restored(resolve, files, journal), RestoreTarget(resolve, saved.key).value))
  {
    RestoredSnoc(resolve, files, journal, saved);
    var before := Restored(resolve, files, journal);
    var l := RestoreTarget(resolve, saved.key);
    if l.Some? {
      assert At(Put(before, l.value, saved.bytes), l.value) == saved.bytes;
      if saved.bytes == At(before, l.value) {
        assert Put(before, l.value, saved.bytes) == before;
      }
    }
  }

  /** A deletion that was journalled under the raw path is undone exactly if
      that path has no leading slash. */
  lemma DeletionIsUndoneIff(resolve: Resolver, files: Files, path: string)
    requires Target(resolve, path).Some? && Target(resolve, path).value in files
    ensures var l := Target(resolve, path).value;
            Restored(resolve, files - {l}, [Saved(path, Some(files[l]))]) == files <==> !HasLeadingSlash(path)
  {
    var l := Target(resolve, path).value;
    var saved := Saved(path, Some(files[l]));
    RestoredSnoc(resolve, files - {l}, [], saved);
    assert [] + [saved] == [saved];
    if !HasLeadingSlash(path) {
      assert (files - {l})[l := files[l]] == files;
    } else {
      assert l !in files - {l};
    }
  }
}
