/** The full-text index that the post endpoints keep up to date step by step, against the
    index that a rebuild would make from the files. */
module PostIndex {
  import opened Options
  import opened PyText
  import opened Frontmatter

  datatype Path = Path(text: string)
  type RowId = nat

  /** What the index holds for one row. */
  datatype Posting = Posting(id: RowId, title: string, subtitle: string, content: string)

  /** The cached row of a post; rows are keyed by path. */
  datatype Row = Row(id: RowId, title: string, subtitle: Option<string>)

  datatype State = State(rows: map<Path, Row>, index: multiset<Posting>, files: map<Path, PostFile>)

  /** How the file-system and commit steps of a create or update turn out. A write that fails, after which
      the database is rolled back, may leave anything at the path: `left` is what a scan then reads there,
      or nothing. `LateFailure` means that the file was written but the commit (or the directory rename)
      failed. `Stranded` is a late failure of an update whose directory was renamed and could not be renamed back. */
  datatype Outcome = Completed | WriteFailed(left: Option<PostFile>) | LateFailure | Stranded

  /** How the steps of a deletion turn out: reading the old text, the delete command of the index and, after the commit,
      the removal of the file. A failure of any of them is passed over. */
  datatype Removal = Removal(readable: bool, unindexed: bool, unlinked: bool)

  const REMOVED := Removal(true, true, true)

  function OrEmpty(s: Option<string>): string {
    if s.Some? then s.value else ""
  }

  function PostingOf(id: RowId, post: Post): Posting {
    Posting(id, post.title, OrEmpty(post.subtitle), post.content)
  }

  // ----- What a rebuild makes

  /** The postings that a scan of the files gives, with each file under the id of its row. */
  function Scanned(rows: map<Path, Row>, files: map<Path, PostFile>): set<Posting> {
    set p | p in files && p in rows :: PostingOf(rows[p].id, Parse(files[p]))
  }

  ghost predicate DistinctIds(rows: map<Path, Row>) {
    forall p, q :: p in rows && q in rows && p != q ==> rows[p].id != rows[q].id
  }

  /** Every file has its row, with the file's title and subtitle. */
  ghost predicate RowsMatch(s: State) {
    && s.rows.Keys == s.files.Keys
    && DistinctIds(s.rows)
    && forall p <- s.files :: s.rows[p].title == Parse(s.files[p]).title
         && s.rows[p].subtitle == Parse(s.files[p]).subtitle
  }

  /** The index is the one a rebuild would make. */
  ghost predicate InSync(s: State) {
    RowsMatch(s) && s.index == multiset(Scanned(s.rows, s.files))
  }

  ghost predicate Unfold(k: nat) { true }

  /** `InSync` and ids below `next`, kept folded: usable only where `Unfold` is mentioned. */
  ghost predicate Built(s: State, next: RowId) {
    forall k: nat {:trigger Unfold(k)} :: Unfold(k) ==> InSync(s) && forall p <- s.rows :: s.rows[p].id < next
  }

  lemma NothingIsBuilt()
    ensures Built(State(map[], multiset{}, map[]), 1)
  {
    assert Scanned(map[], map[]) == {};
    assert InSync(State(map[], multiset{}, map[]));
  }

  lemma OneMoreIsBuilt(s: State, next: RowId, p: Path, file: PostFile)
    requires Built(s, next) && p !in s.rows
    ensures var post := Parse(file);
            Built(State(s.rows[p := Row(next, post.title, post.subtitle)], s.index + multiset{PostingOf(next, post)},
                        s.files[p := file]), next + 1)
  {
    assert Unfold(0);
    var post := Parse(file);
    AddKeepsSync(s, p, Row(next, post.title, post.subtitle), file, PostingOf(next, post));
  }

  lemma BuiltIsInSync(s: State, next: RowId)
    requires Built(s, next)
    ensures InSync(s)
  {
    assert Unfold(0);
  }

  /** Builds rows and index from the files alone, in the order the files are found. */
  method RebuildCache(files: map<Path, PostFile>) returns (rows: map<Path, Row>, index: multiset<Posting>)
    ensures InSync(State(rows, index, files))
  {
    rows, index := map[], multiset{};
    var todo, next := files.Keys, 1;
    ghost var done: map<Path, PostFile> := map[];
    NothingIsBuilt();
    while todo != {}
      invariant todo <= files.Keys && rows.Keys == done.Keys == files.Keys - todo
      invariant forall p <- done :: done[p] == files[p]
      invariant Built(State(rows, index, done), next)
      decreases todo
    {
      var p :| p in todo;
      todo := todo - {p};
      var post := Parse(files[p]);
      OneMoreIsBuilt(State(rows, index, done), next, p, files[p]);
      rows := rows[p := Row(next, post.title, post.subtitle)];
      index := index + multiset{PostingOf(next, post)};
      done := done[p := files[p]];
      next := next + 1;
    }
    assert done == files;
    BuiltIsInSync(State(rows, index, done), next);
  }

  // ----- The endpoints, on values

  /** The delete command of the index takes out exactly the posting it is given, if that is there. */
  function FtsDelete(index: multiset<Posting>, posting: Posting): multiset<Posting> {
    index - multiset{posting}
  }

  /** The text that `read_post` gives for the file, or nothing if there is no file or it cannot be read. */
  function OldContent(s: State, path: Path, readable: bool): string {
    if path in s.files && readable then Parse(s.files[path]).content else ""
  }

  /** What is taken for the old text is the old text. */
  predicate IsKnown(s: State, path: Path, readable: bool) {
    OldContent(s, path, readable) == OldContent(s, path, true)
  }

  function PutFile(files: map<Path, PostFile>, path: Path, left: Option<PostFile>): map<Path, PostFile> {
    if left.Some? then files[path := left.value] else files - {path}
  }

  function Create(s: State, path: Path, id: RowId, post: Post, outcome: Outcome): State {
    if path in s.rows then s
    else
      match outcome
      case Completed =>
        State(s.rows[path := Row(id, post.title, post.subtitle)],
              s.index + multiset{PostingOf(id, post)},
              s.files[path := Serialize(post)])
      case WriteFailed(left) => s.(files := PutFile(s.files, path, left))
      case _ => s.(files := s.files[path := Serialize(post)])
  }

  function Update(s: State, path: Path, newPath: Path, post: Post, readable: bool, outcome: Outcome): State {
    if path !in s.rows then s
    else if outcome.WriteFailed? then s.(files := PutFile(s.files, path, outcome.left))
    else if outcome.LateFailure? then s.(files := s.files[path := Serialize(post)])
    else if outcome.Stranded? then s.(files := (s.files - {path})[newPath := Serialize(post)])
    else
      var row := s.rows[path];
      var previous := Posting(row.id, row.title, OrEmpty(row.subtitle), OldContent(s, path, readable));
      State((s.rows - {path})[newPath := Row(row.id, post.title, post.subtitle)],
            FtsDelete(s.index, previous) + multiset{PostingOf(row.id, post)},
            (s.files - {path})[newPath := Serialize(post)])
  }

  function Delete(s: State, path: Path, removal: Removal): State {
    if path !in s.rows then s
    else
      var row := s.rows[path];
      var posting := Posting(row.id, row.title, OrEmpty(row.subtitle), OldContent(s, path, removal.readable));
      State(s.rows - {path},
            if removal.unindexed then FtsDelete(s.index, posting) else s.index,
            if removal.unlinked then s.files - {path} else s.files)
  }

  // ----- The sets behind the index

  lemma MultisetOfMore<T>(a: set<T>, x: T)
    requires x !in a
    ensures multiset(a + {x}) == multiset(a) + multiset{x}
  {
  }

  lemma MultisetOfFewer<T>(a: set<T>, x: T)
    requires x in a
    ensures multiset(a - {x}) == multiset(a) - multiset{x}
  {
  }

  /** A posting that is scanned without one path is scanned with it, and is another one. */
  lemma RestIsScanned(s: State, path: Path, x: Posting)
    requires DistinctIds(s.rows) && path in s.rows && path in s.files && x in Scanned(s.rows - {path}, s.files - {path})
    ensures x in Scanned(s.rows, s.files) && x != PostingOf(s.rows[path].id, Parse(s.files[path]))
  {
    var rows, files := s.rows - {path}, s.files - {path};
    var p :| p in files && p in rows && x == PostingOf(rows[p].id, Parse(files[p]));
    assert p in s.files && p in s.rows && p != path && files[p] == s.files[p];
    assert s.rows[p].id != s.rows[path].id;
  }

  lemma OthersAreRest(s: State, path: Path, x: Posting)
    requires path in s.rows && path in s.files && x in Scanned(s.rows, s.files)
    requires x != PostingOf(s.rows[path].id, Parse(s.files[path]))
    ensures x in Scanned(s.rows - {path}, s.files - {path})
  {
    var rows, files := s.rows - {path}, s.files - {path};
    var p :| p in s.files && p in s.rows && x == PostingOf(s.rows[p].id, Parse(s.files[p]));
    assert p in files && p in rows && files[p] == s.files[p] && rows[p] == s.rows[p];
  }

  lemma RowsMatchWithout(s: State, path: Path)
    requires RowsMatch(s)
    ensures RowsMatch(State(s.rows - {path}, s.index, s.files - {path}))
  {
  }

  lemma ScannedWithout(s: State, path: Path)
    requires RowsMatch(s) && path in s.rows
    ensures PostingOf(s.rows[path].id, Parse(s.files[path])) in Scanned(s.rows, s.files)
    ensures Scanned(s.rows - {path}, s.files - {path})
         == Scanned(s.rows, s.files) - {PostingOf(s.rows[path].id, Parse(s.files[path]))}
  {
    var gone := PostingOf(s.rows[path].id, Parse(s.files[path]));
    var rest := Scanned(s.rows - {path}, s.files - {path});
    forall x | x in rest ensures x in Scanned(s.rows, s.files) && x != gone {
      RestIsScanned(s, path, x);
    }
    forall x | x in Scanned(s.rows, s.files) && x != gone ensures x in rest {
      OthersAreRest(s, path, x);
    }
  }

  lemma ScannedKeeps(s: State, path: Path, row: Row, file: PostFile, x: Posting)
    requires path !in s.rows && x in Scanned(s.rows, s.files) && forall p <- s.rows :: s.rows[p].id != row.id
    ensures x in Scanned(s.rows[path := row], s.files[path := file]) && x.id != row.id
  {
    var p :| p in s.files && p in s.rows && x == PostingOf(s.rows[p].id, Parse(s.files[p]));
    var rows, files := s.rows[path := row], s.files[path := file];
    assert p in files && p in rows && rows[p] == s.rows[p] && files[p] == s.files[p];
  }

  lemma ScannedAdds(s: State, path: Path, row: Row, file: PostFile, x: Posting)
    requires path !in s.rows && x in Scanned(s.rows[path := row], s.files[path := file])
    ensures x == PostingOf(row.id, Parse(file)) || x in Scanned(s.rows, s.files)
  {
    var rows, files := s.rows[path := row], s.files[path := file];
    var p :| p in files && p in rows && x == PostingOf(rows[p].id, Parse(files[p]));
    if p != path {
      assert p in s.files && p in s.rows && rows[p] == s.rows[p] && files[p] == s.files[p];
    }
  }

  lemma ScannedWith(s: State, path: Path, row: Row, file: PostFile)
    requires path !in s.rows && forall p <- s.rows :: s.rows[p].id != row.id
    ensures PostingOf(row.id, Parse(file)) !in Scanned(s.rows, s.files)
    ensures Scanned(s.rows[path := row], s.files[path := file]) == Scanned(s.rows, s.files)
              + {PostingOf(row.id, Parse(file))}
  {
    var rows, files := s.rows[path := row], s.files[path := file];
    var added := PostingOf(row.id, Parse(file));
    forall x | x in Scanned(s.rows, s.files) ensures x in Scanned(rows, files) && x != added {
      ScannedKeeps(s, path, row, file, x);
    }
    forall x | x in Scanned(rows, files) && x != added ensures x in Scanned(s.rows, s.files) {
      ScannedAdds(s, path, row, file, x);
    }
    assert path in files && path in rows;
    assert added in Scanned(rows, files);
  }

  lemma RowsStillMatch(s: State, path: Path, row: Row, file: PostFile, index: multiset<Posting>)
    requires RowsMatch(s) && path !in s.rows && forall p <- s.rows :: s.rows[p].id != row.id
    requires row.title == Parse(file).title && row.subtitle == Parse(file).subtitle
    ensures RowsMatch(State(s.rows[path := row], index, s.files[path := file]))
  {
  }

  /** Adding a row, its file and a posting keeps the index in sync exactly
      if the posting is what the file reads as. */
  lemma AddKeepsSync(s: State, path: Path, row: Row, file: PostFile, posting: Posting)
    requires InSync(s) && path !in s.rows && forall p <- s.rows :: s.rows[p].id != row.id
    requires row.title == Parse(file).title && row.subtitle == Parse(file).subtitle
    ensures InSync(State(s.rows[path := row], s.index + multiset{posting}, s.files[path := file]))
            <==> posting == PostingOf(row.id, Parse(file))
  {
    var t := State(s.rows[path := row], s.index + multiset{posting}, s.files[path := file]);
    var expected := PostingOf(row.id, Parse(file));
    ScannedWith(s, path, row, file);
    MultisetOfMore(Scanned(s.rows, s.files), expected);
    RowsStillMatch(s, path, row, file, t.index);
    if posting != expected {
      assert t.index[expected] == 0;
      assert multiset(Scanned(t.rows, t.files))[expected] == 1;
    }
  }

  lemma RemoveKeepsSync(s: State, path: Path)
    requires InSync(s) && path in s.rows
    ensures InSync(Delete(s, path, REMOVED))
  {
    ScannedWithout(s, path);
    RowsMatchWithout(s, path);
    MultisetOfFewer(Scanned(s.rows, s.files), PostingOf(s.rows[path].id, Parse(s.files[path])));
  }

  // ----- One request

  /** A new post keeps the index in sync exactly if its body reads back unchanged. */
  lemma CreateKeepsSync(s: State, path: Path, id: RowId, post: Post)
    requires InSync(s) && IsValid(post) && path !in s.rows && forall p <- s.rows :: s.rows[p].id != id
    ensures InSync(Create(s, path, id, post, Completed)) <==> ReadsBackUnchanged(post)
  {
    AddPostKeepsSync(s, path, id, post);
  }

  /** A completed update is a deletion and an addition under the old id. */
  lemma UpdateIsDeleteAndAdd(s: State, path: Path, newPath: Path, post: Post)
    requires path in s.rows
    ensures var t := Delete(s, path, REMOVED); var id := s.rows[path].id;
            Update(s, path, newPath, post, true, Completed)
            == State(t.rows[newPath := Row(id, post.title, post.subtitle)], t.index + multiset{PostingOf(id, post)},
                     t.files[newPath := Serialize(post)])
  {
  }

  /** An update, with or without a move to a free path, does so under the same condition. */
  lemma UpdateKeepsSync(s: State, path: Path, newPath: Path, post: Post)
    requires InSync(s) && IsValid(post) && path in s.rows && (newPath == path || newPath !in s.rows)
    ensures InSync(Update(s, path, newPath, post, true, Completed)) <==> ReadsBackUnchanged(post)
  {
    var id, t := s.rows[path].id, Delete(s, path, REMOVED);
    RemoveKeepsSync(s, path);
    UpdateIsDeleteAndAdd(s, path, newPath, post);
    IdIsFree(s, path);
    AddPostKeepsSync(t, newPath, id, post);
  }

  lemma IdIsFree(s: State, path: Path)
    requires DistinctIds(s.rows) && path in s.rows
    ensures forall p <- Delete(s, path, REMOVED).rows :: Delete(s, path, REMOVED).rows[p].id != s.rows[path].id
  {
  }

  lemma AddPostKeepsSync(s: State, path: Path, id: RowId, post: Post)
    requires InSync(s) && IsValid(post) && path !in s.rows && forall p <- s.rows :: s.rows[p].id != id
    ensures InSync(State(s.rows[path := Row(id, post.title, post.subtitle)], s.index + multiset{PostingOf(id, post)},
                         s.files[path := Serialize(post)]))
            <==> ReadsBackUnchanged(post)
  {
    StoreThenRead(post);
    AddKeepsSync(s, path, Row(id, post.title, post.subtitle), Serialize(post), PostingOf(id, post));
  }

  /** Two states in sync with the same rows and index have files that read the same. */
  lemma IndexFixesReading(s: State, t: State, path: Path)
    requires InSync(s) && InSync(t) && t.rows == s.rows && t.index == s.index && path in s.rows
    ensures Parse(t.files[path]) == Parse(s.files[path])
  {
    SyncedPosting(s, path);
    OnlyPosting(t, path, PostingOf(s.rows[path].id, Parse(s.files[path])));
    assert Parse(t.files[path]).subtitle == s.rows[path].subtitle == Parse(s.files[path]).subtitle;
  }

  lemma FileReadsSame(s: State, path: Path, file: PostFile)
    requires InSync(s) && path in s.rows && Parse(file) == Parse(s.files[path])
    ensures InSync(s.(files := s.files[path := file]))
  {
    var t := s.(files := s.files[path := file]);
    assert path in s.files && t.files.Keys == s.files.Keys;
    forall p | p in s.files ensures Parse(t.files[p]) == Parse(s.files[p]) {
      OtherFilesStay(s.files, path, file, p);
    }
    ScannedSame(s, t);
  }

  lemma OtherFilesStay(files: map<Path, PostFile>, path: Path, file: PostFile, p: Path)
    requires p in files
    ensures files[path := file][p] == if p == path then file else files[p]
  {
  }

  /** A change of one file behind the index's back goes unnoticed exactly if it reads the same. */
  lemma FileChanged(s: State, path: Path, file: PostFile)
    requires InSync(s) && path in s.rows
    ensures InSync(s.(files := s.files[path := file])) <==> Parse(file) == Parse(s.files[path])
  {
    var t := s.(files := s.files[path := file]);
    if Parse(file) == Parse(s.files[path]) {
      FileReadsSame(s, path, file);
    } else if InSync(t) {
      IndexFixesReading(s, t, path);
    }
  }

  /** An update that fails late leaves the file ahead of the database: the index stays in sync
      exactly if the new text reads back as the old one. */
  lemma LateUpdateFailure(s: State, path: Path, newPath: Path, post: Post, readable: bool)
    requires InSync(s) && path in s.rows
    ensures InSync(Update(s, path, newPath, post, readable, LateFailure))
            <==> Parse(Serialize(post)) == Parse(s.files[path])
  {
    FileChanged(s, path, Serialize(post));
  }

  lemma FileWithoutRow(s: State, path: Path)
    requires path in s.files && path !in s.rows
    ensures !InSync(s)
  {
  }

  /** An update that leaves its directory at the new place is out of sync there; without a move it is
      a late failure like any other. */
  lemma StrandedUpdate(s: State, path: Path, newPath: Path, post: Post, readable: bool)
    requires InSync(s) && path in s.rows && (newPath == path || newPath !in s.rows)
    ensures InSync(Update(s, path, newPath, post, readable, Stranded))
            <==> newPath == path && Parse(Serialize(post)) == Parse(s.files[path])
  {
    if newPath == path {
      StrandedInPlace(s, path, post, readable);
      LateUpdateFailure(s, path, path, post, readable);
    } else {
      StrandedElsewhere(s, path, newPath, post, readable);
    }
  }

  lemma StrandedElsewhere(s: State, path: Path, newPath: Path, post: Post, readable: bool)
    requires path in s.rows && newPath !in s.rows
    ensures !InSync(Update(s, path, newPath, post, readable, Stranded))
  {
    FileWithoutRow(Update(s, path, newPath, post, readable, Stranded), newPath);
  }

  lemma StrandedInPlace(s: State, path: Path, post: Post, readable: bool)
    requires path in s.rows
    ensures Update(s, path, path, post, readable, Stranded) == Update(s, path, path, post, readable, LateFailure)
  {
    assert (s.files - {path})[path := Serialize(post)] == s.files[path := Serialize(post)];
  }

  /** A create whose write fails keeps the index in sync exactly if it leaves nothing to be read. */
  lemma FailedCreate(s: State, path: Path, id: RowId, post: Post, left: Option<PostFile>)
    requires InSync(s) && path !in s.rows
    ensures InSync(Create(s, path, id, post, WriteFailed(left))) <==> left.None?
  {
    if left.Some? {
      FileWithoutRow(Create(s, path, id, post, WriteFailed(left)), path);
    } else {
      FilesHaveRows(s);
      NothingLeft(s, path, id, post);
    }
  }

  lemma FilesHaveRows(s: State)
    requires InSync(s)
    ensures s.rows.Keys == s.files.Keys
  {
  }

  lemma NothingLeft(s: State, path: Path, id: RowId, post: Post)
    requires path !in s.files
    ensures path !in s.rows ==> Create(s, path, id, post, WriteFailed(None)) == s
  {
    assert s.files - {path} == s.files;
  }

  /** An update whose write fails keeps it in sync exactly if the file still reads as before. */
  lemma FailedUpdate(s: State, path: Path, newPath: Path, post: Post, readable: bool, left: Option<PostFile>)
    requires InSync(s) && path in s.rows
    ensures InSync(Update(s, path, newPath, post, readable, WriteFailed(left))) <==>
            left.Some? && Parse(left.value) == Parse(s.files[path])
  {
    if left.Some? {
      FileChanged(s, path, left.value);
    } else {
      RowWithoutFile(Update(s, path, newPath, post, readable, WriteFailed(left)), path);
    }
  }

  lemma RowWithoutFile(s: State, path: Path)
    requires path in s.rows && path !in s.files
    ensures !InSync(s)
  {
  }

  /** A file that was made but not committed is always out of sync. */
  lemma LateCreateFailure(s: State, path: Path, id: RowId, post: Post)
    requires path !in s.rows
    ensures !InSync(Create(s, path, id, post, LateFailure))
  {
    FileWithoutRow(Create(s, path, id, post, LateFailure), path);
  }

  /** A text that is not known is not empty, and the delete command finds no posting for the empty one. */
  lemma UnknownIsNotDeleted(s: State, path: Path, readable: bool)
    requires InSync(s) && path in s.rows && !IsKnown(s, path, readable)
    ensures var row := s.rows[path];
            var given := Posting(row.id, row.title, OrEmpty(row.subtitle), OldContent(s, path, readable));
            FtsDelete(s.index, given) == s.index
  {
    var row := s.rows[path];
    var given := Posting(row.id, row.title, OrEmpty(row.subtitle), OldContent(s, path, readable));
    if given in s.index {
      OnlyPosting(s, path, given);
    }
  }

  /** An update whose old text cannot be read leaves the old posting in the index, beside the new one. */
  lemma UnknownUpdate(s: State, path: Path, newPath: Path, post: Post, readable: bool)
    requires InSync(s) && path in s.rows && !IsKnown(s, path, readable)
    ensures !InSync(Update(s, path, newPath, post, readable, Completed))
  {
    UnknownIsNotDeleted(s, path, readable);
    SyncedPosting(s, path);
    NothingDeleted(s, path, newPath, post, readable);
    var t, id := Update(s, path, newPath, post, readable, Completed), s.rows[path].id;
    BothThere(s.index, PostingOf(id, Parse(s.files[path])), PostingOf(id, post));
    TwoPostings(t, newPath, PostingOf(id, Parse(s.files[path])), PostingOf(id, post));
  }

  lemma NothingDeleted(s: State, path: Path, newPath: Path, post: Post, readable: bool)
    requires path in s.rows
    requires var row := s.rows[path];
             var given := Posting(row.id, row.title, OrEmpty(row.subtitle), OldContent(s, path, readable));
             FtsDelete(s.index, given) == s.index
    ensures var t, id := Update(s, path, newPath, post, readable, Completed), s.rows[path].id;
            t.index == s.index + multiset{PostingOf(id, post)} && newPath in t.rows && t.rows[newPath].id == id
  {
  }

  lemma BothThere(index: multiset<Posting>, x: Posting, y: Posting)
    requires x in index
    ensures var more := index + multiset{y}; x in more && y in more && (x == y ==> more[x] > 1)
  {
  }

  lemma TwoPostings(s: State, path: Path, x: Posting, y: Posting)
    requires path in s.rows && x.id == y.id == s.rows[path].id
    requires x in s.index && y in s.index && (x == y ==> s.index[x] > 1)
    ensures !InSync(s)
  {
    if InSync(s) {
      OnlyPosting(s, path, x);
      OnlyPosting(s, path, y);
    }
  }

  lemma KnownIsRead(s: State, path: Path, newPath: Path, post: Post, readable: bool)
    requires IsKnown(s, path, readable)
    ensures Update(s, path, newPath, post, readable, Completed) == Update(s, path, newPath, post, true, Completed)
  {
  }

  /** A completed update keeps the index in sync exactly if its old text was known and the new body reads back
      unchanged. */
  lemma CompletedUpdate(s: State, path: Path, newPath: Path, post: Post, readable: bool)
    requires InSync(s) && path in s.rows && IsValid(post) && (newPath == path || newPath !in s.rows)
    ensures InSync(Update(s, path, newPath, post, readable, Completed))
            <==> IsKnown(s, path, readable) && ReadsBackUnchanged(post)
  {
    if IsKnown(s, path, readable) {
      UpdateKeepsSync(s, path, newPath, post);
      KnownIsRead(s, path, newPath, post, readable);
    } else {
      UnknownUpdate(s, path, newPath, post, readable);
    }
  }

  predicate TakesAll(s: State, path: Path, removal: Removal) {
    IsKnown(s, path, removal.readable) && removal.unindexed && removal.unlinked
  }

  /** A deletion keeps the index in sync exactly if the posting and the file are both gone. */
  lemma DeleteInSync(s: State, path: Path, removal: Removal)
    requires InSync(s) && path in s.rows
    ensures InSync(Delete(s, path, removal)) <==> TakesAll(s, path, removal)
  {
    if TakesAll(s, path, removal) {
      RemoveKeepsSync(s, path);
      assert Delete(s, path, removal) == Delete(s, path, REMOVED);
    } else if !removal.unlinked {
      FileWithoutRow(Delete(s, path, removal), path);
    } else {
      if removal.unindexed {
        UnknownIsNotDeleted(s, path, removal.readable);
      }
      SyncedPosting(s, path);
      OrphanedPosting(Delete(s, path, removal), PostingOf(s.rows[path].id, Parse(s.files[path])));
    }
  }

  /** A posting under an id that no row has. */
  lemma OrphanedPosting(s: State, x: Posting)
    requires x in s.index && forall p <- s.rows :: s.rows[p].id != x.id
    ensures !InSync(s)
  {
    assert x !in Scanned(s.rows, s.files);
  }

  lemma ScannedSame(s: State, t: State)
    requires InSync(s) && t.rows == s.rows && t.index == s.index && t.files.Keys == s.files.Keys
    requires forall p <- s.files :: Parse(t.files[p]) == Parse(s.files[p])
    ensures InSync(t)
  {
    assert Scanned(t.rows, t.files) == Scanned(s.rows, s.files);
  }

  /** In a state in sync, the index holds what a row's file reads as ... */
  lemma SyncedPosting(s: State, path: Path)
    requires InSync(s) && path in s.rows
    ensures PostingOf(s.rows[path].id, Parse(s.files[path])) in s.index
  {
    ScannedWithout(s, path);
  }

  /** ... and nothing else under its id. */
  lemma OnlyPosting(s: State, path: Path, x: Posting)
    requires InSync(s) && path in s.rows && x in s.index && x.id == s.rows[path].id
    ensures x == PostingOf(x.id, Parse(s.files[path]))
  {
    assert x in Scanned(s.rows, s.files);
    var p :| p in s.files && p in s.rows && x == PostingOf(s.rows[p].id, Parse(s.files[p]));
    assert p == path;
  }

  // ----- Runs

  /** A request and how it turns out. `DoFail` is one that is rejected or fails before a file is written. */
  datatype Request =
    | DoCreate(path: Path, id: RowId, post: Post, outcome: Outcome)
    | DoUpdate(path: Path, newPath: Path, post: Post, readable: bool, outcome: Outcome)
    | DoDelete(path: Path, removal: Removal)
    | DoFail

  function After(s: State, r: Request): State {
    match r
    case DoCreate(path, id, post, outcome) => Create(s, path, id, post, outcome)
    case DoUpdate(path, newPath, post, readable, outcome) => Update(s, path, newPath, post, readable, outcome)
    case DoDelete(path, removal) => Delete(s, path, removal)
    case DoFail => s
  }

  /** What the surroundings provide: validated posts, unused row ids, free target paths. */
  ghost predicate Admissible(s: State, r: Request) {
    match r
    case DoCreate(_, id, post, _) => IsValid(post) && forall p <- s.rows :: s.rows[p].id != id
    case DoUpdate(path, newPath, post, _, _) => IsValid(post) && (newPath == path || newPath !in s.rows)
    case _ => true
  }

  /** The file reads as the one that is there. */
  predicate ReadsTheSame(s: State, path: Path, file: PostFile) {
    path in s.files && Parse(file) == Parse(s.files[path])
  }

  predicate FaithfulUpdate(s: State, path: Path, newPath: Path, post: Post, readable: bool, outcome: Outcome) {
    match outcome
    case Completed => IsKnown(s, path, readable) && ReadsBackUnchanged(post)
    case WriteFailed(left) => left.Some? && ReadsTheSame(s, path, left.value)
    case LateFailure => ReadsTheSame(s, path, Serialize(post))
    case Stranded => newPath == path && ReadsTheSame(s, path, Serialize(post))
  }

  predicate FaithfulCreate(post: Post, outcome: Outcome) {
    match outcome
    case Completed => ReadsBackUnchanged(post)
    case WriteFailed(left) => left.None?
    case _ => false
  }

  /** A completed request stores no body that would read back differently, and an update or deletion has read the text
      that it replaces. One that fails makes no file, moves none, and changes none except to one that reads the same. A
      deletion takes both the posting and the file. */
  predicate Faithful(s: State, r: Request) {
    match r
    case DoCreate(path, _, post, outcome) => path in s.rows || FaithfulCreate(post, outcome)
    case DoUpdate(path, newPath, post, readable, outcome) =>
      path !in s.rows || FaithfulUpdate(s, path, newPath, post, readable, outcome)
    case DoDelete(path, removal) => path !in s.rows || TakesAll(s, path, removal)
    case DoFail => true
  }

  function Run(s: State, requests: seq<Request>): State {
    if requests == [] then s else After(Run(s, requests[..|requests| - 1]), requests[|requests| - 1])
  }

  ghost predicate AllAdmissible(s: State, requests: seq<Request>) {
    requests == [] ||
    (AllAdmissible(s, requests[..|requests| - 1])
        && Admissible(Run(s, requests[..|requests| - 1]), requests[|requests| - 1]))
  }

  predicate AllFaithful(s: State, requests: seq<Request>) {
    requests == [] ||
    (AllFaithful(s, requests[..|requests| - 1])
        && Faithful(Run(s, requests[..|requests| - 1]), requests[|requests| - 1]))
  }

  /** In sync at the end, and after every request before. */
  ghost predicate AlwaysInSync(s: State, requests: seq<Request>) {
    InSync(Run(s, requests)) && (requests == [] || AlwaysInSync(s, requests[..|requests| - 1]))
  }

  lemma UpdateInSync(s: State, path: Path, newPath: Path, post: Post, readable: bool, outcome: Outcome)
    requires InSync(s) && path in s.rows && IsValid(post) && (newPath == path || newPath !in s.rows)
    ensures InSync(Update(s, path, newPath, post, readable, outcome))
            <==> FaithfulUpdate(s, path, newPath, post, readable, outcome)
  {
    match outcome {
      case Completed => CompletedUpdate(s, path, newPath, post, readable);
      case WriteFailed(left) => FailedUpdate(s, path, newPath, post, readable, left);
      case LateFailure => LateUpdateFailure(s, path, newPath, post, readable);
      case Stranded => StrandedUpdate(s, path, newPath, post, readable);
    }
  }

  lemma CreateInSync(s: State, path: Path, id: RowId, post: Post, outcome: Outcome)
    requires InSync(s) && path !in s.rows && IsValid(post) && forall p <- s.rows :: s.rows[p].id != id
    ensures InSync(Create(s, path, id, post, outcome)) <==> FaithfulCreate(post, outcome)
  {
    match outcome {
      case Completed => CreateKeepsSync(s, path, id, post);
      case WriteFailed(left) => FailedCreate(s, path, id, post, left);
      case LateFailure => LateCreateFailure(s, path, id, post);
      case Stranded =>
        LateCreateFailure(s, path, id, post);
        assert Create(s, path, id, post, Stranded) == Create(s, path, id, post, LateFailure);
    }
  }

  lemma RequestKeepsSync(s: State, r: Request)
    requires InSync(s) && Admissible(s, r)
    ensures InSync(After(s, r)) <==> Faithful(s, r)
  {
    match r {
      case DoCreate(path, id, post, outcome) => if path !in s.rows { CreateInSync(s, path, id, post, outcome); }
      case DoUpdate(path, newPath, post, readable, outcome) =>
        if path in s.rows {
          UpdateInSync(s, path, newPath, post, readable, outcome);
        }
      case DoDelete(path, removal) => if path in s.rows { DeleteInSync(s, path, removal); }
      case DoFail =>
    }
  }

  /** Over every run and every way its requests turn out: the incremental index is the one a rebuild
      would make, after every request, if and only if every request was faithful. */
  lemma {:induction false} AlwaysInSyncIffFaithful(s: State, requests: seq<Request>)
    requires InSync(s) && AllAdmissible(s, requests)
    ensures AlwaysInSync(s, requests) <==> AllFaithful(s, requests)
  {
    if requests != [] {
      var front, last := requests[..|requests| - 1], requests[|requests| - 1];
      AlwaysInSyncIffFaithful(s, front);
      if AlwaysInSync(s, front) {
        EndsInSync(s, front);
        RequestKeepsSync(Run(s, front), last);
      }
    }
  }

  lemma EndsInSync(s: State, requests: seq<Request>)
    requires AlwaysInSync(s, requests)
    ensures InSync(Run(s, requests))
  {
  }

  // ----- The endpoints

  /** The database and the post files, as the endpoints change them. */
  class PostStore {
    var rows: map<Path, Row>
    var index: multiset<Posting>
    var files: map<Path, PostFile>

    ghost function View(): State
      reads this
    {
      State(rows, index, files)
    }

    constructor ()
      ensures View() == State(map[], multiset{}, map[]) && InSync(View())
    {
      rows, index, files := map[], multiset{}, map[];
      NothingIsBuilt();
      BuiltIsInSync(State(map[], multiset{}, map[]), 1);
    }

    /** `_upsert_post_fts`: an old text, if given, is deleted first. */
    method UpsertPostFts(posting: Posting, previous: Option<Posting>)
      modifies `index
      ensures index == (if previous.Some? then FtsDelete(old(index), previous.value) else old(index))
                + multiset{posting}
    {
      if previous.Some? {
        index := FtsDelete(index, previous.value);
      }
      index := index + multiset{posting};
    }

    method CreatePost(path: Path, id: RowId, post: Post, outcome: Outcome)
      requires IsValid(post) && forall p <- rows :: rows[p].id != id
      modifies this
      ensures View() == Create(old(View()), path, id, post, outcome)
    {
      if path in rows {
        return;
      }
      var rolledBackRows, rolledBackIndex := rows, index;
      rows := rows[path := Row(id, post.title, post.subtitle)];
      UpsertPostFts(PostingOf(id, post), None);
      if outcome.WriteFailed? {
        files := PutFile(files, path, outcome.left);
        rows, index := rolledBackRows, rolledBackIndex;
        return;
      }
      files := files[path := Serialize(post)];
      if !outcome.Completed? {
        rows, index := rolledBackRows, rolledBackIndex;
      }
    }

    /** The text of the post, or nothing if there is no file or it cannot be read. */
    method ReadPost(path: Path, readable: bool) returns (content: string)
      ensures content == OldContent(View(), path, readable)
    {
      content := "";
      if path in files && readable {
        content := Parse(files[path]).content;
      }
    }

    method UpdatePost(path: Path, newPath: Path, post: Post, readable: bool, outcome: Outcome)
      requires IsValid(post) && (newPath == path || newPath !in rows)
      modifies this
      ensures View() == Update(old(View()), path, newPath, post, readable, outcome)
    {
      if path !in rows {
        return;
      }
      var row := rows[path];
      var previousContent := ReadPost(path, readable);
      var rolledBackRows, rolledBackIndex := rows, index;
      UpsertPostFts(PostingOf(row.id, post), Some(Posting(row.id, row.title, OrEmpty(row.subtitle), previousContent)));
      rows := (rows - {path})[newPath := Row(row.id, post.title, post.subtitle)];
      if outcome.WriteFailed? {
        files := PutFile(files, path, outcome.left);
        rows, index := rolledBackRows, rolledBackIndex;
        return;
      }
      if outcome.LateFailure? {
        files := files[path := Serialize(post)];
        rows, index := rolledBackRows, rolledBackIndex;
        return;
      }
      files := (files - {path})[newPath := Serialize(post)];
      if outcome.Stranded? {
        rows, index := rolledBackRows, rolledBackIndex;
      }
    }

    method DeletePost(path: Path, removal: Removal)
      modifies this
      ensures View() == Delete(old(View()), path, removal)
    {
      if path !in rows {
        return;
      }
      var row := rows[path];
      var oldContent := ReadPost(path, removal.readable);
      if removal.unindexed {
        index := FtsDelete(index, Posting(row.id, row.title, OrEmpty(row.subtitle), oldContent));
      }
      rows := rows - {path};
      if removal.unlinked {
        files := files - {path};
      }
    }
  }
}
