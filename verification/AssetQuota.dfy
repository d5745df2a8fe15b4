/** Storage accounting of the asset endpoints: the tracked usage against the files on disk. */
module AssetQuota {
  import opened Options

  type Bytes = seq<bv8>

  /** A managed file: the directory of a post, and a file name. */
  datatype Path = Path(dir: string, name: string)

  datatype Asset = Asset(name: string, data: Bytes)

  type Files = map<Path, Bytes>

  // ----- The size of what is stored

  /** The sum of all file sizes. */
  ghost function TotalSize(files: Files): nat {
    if files == map[] then 0
    else
      var p :| p in files;
      |files[p]| + TotalSize(files - {p})
  }

  function SizeAt(files: Files, p: Path): nat {
    if p in files then |files[p]| else 0
  }

  lemma {:induction false} TotalSizeWithout(files: Files, p: Path)
    requires p in files
    ensures TotalSize(files) == |files[p]| + TotalSize(files - {p})
    decreases |files|
  {
    var q :| q in files && TotalSize(files) == |files[q]| + TotalSize(files - {q});
    if p != q {
      assert (files - {q}).Keys == files.Keys - {q};
      TotalSizeWithout(files - {q}, p);
      assert p in files - {q} && q in files - {p};
      assert (files - {p}).Keys == files.Keys - {p};
      TotalSizeWithout(files - {p}, q);
      assert (files - {q}) - {p} == (files - {p}) - {q};
    }
  }

  /** Writing one file changes the sum by the difference of its sizes. */
  lemma TotalSizeAfterWrite(files: Files, p: Path, data: Bytes)
    ensures TotalSize(files[p := data]) == TotalSize(files) - SizeAt(files, p) + |data|
  {
    TotalSizeWithout(files[p := data], p);
    assert files[p := data] - {p} == files - {p};
    if p in files {
      TotalSizeWithout(files, p);
    } else {
      assert files - {p} == files;
    }
  }

  lemma TotalSizeAfterRename(files: Files, from: Path, to: Path)
    requires from in files && to !in files
    ensures TotalSize((files - {from})[to := files[from]]) == TotalSize(files)
  {
    TotalSizeWithout(files, from);
    TotalSizeAfterWrite(files - {from}, to, files[from]);
  }

  /** The files after the assets have been written, one after the other. */
  function WriteAll(files: Files, dir: string, assets: seq<Asset>): Files {
    if assets == [] then files
    else
      var last := assets[|assets| - 1];
      WriteAll(files, dir, assets[..|assets| - 1])[Path(dir, last.name) := last.data]
  }

  /** The size each name ends up with: the last upload of a name wins. */
  function FinalSizes(assets: seq<Asset>): map<string, nat> {
    if assets == [] then map[]
    else
      var last := assets[|assets| - 1];
      FinalSizes(assets[..|assets| - 1])[last.name := |last.data|]
  }

  lemma {:induction false} WriteAllFiles(files: Files, dir: string, assets: seq<Asset>)
    ensures var after := WriteAll(files, dir, assets);
            && (forall p :: p in after <==> p in files || (p.dir == dir && p.name in FinalSizes(assets)))
            && (forall p :: p in after && p.dir == dir && p.name in FinalSizes(assets) ==>
                 |after[p]| == FinalSizes(assets)[p.name])
            && (forall p :: p in after && !(p.dir == dir && p.name in FinalSizes(assets)) ==> after[p] == files[p])
  {
    if assets != [] {
      WriteAllFiles(files, dir, assets[..|assets| - 1]);
    }
  }

  /** The files of which only those named in `done` have been written. */
  function WrittenOnly(files: Files, after: Files, dir: string, done: set<string>): Files {
    map p | p in files.Keys + after.Keys && (p in files || (p.dir == dir && p.name in done))
      :: if p.dir == dir && p.name in done && p in after then after[p] else if p in files then files[p] else after[p]
  }

  // ----- Prediction

  method CollectFinalSizes(assets: seq<Asset>) returns (finalSizes: map<string, nat>)
    ensures finalSizes == FinalSizes(assets)
  {
    finalSizes := map[];
    for i := 0 to |assets|
      invariant finalSizes == FinalSizes(assets[..i])
    {
      assert assets[..i + 1][..i] == assets[..i];
      finalSizes := finalSizes[assets[i].name := |assets[i].data|];
    }
    assert assets[..|assets|] == assets;
  }

  /** Before the first name nothing has been written, after the last one everything. */
  lemma NoneAndAllWritten(files: Files, dir: string, assets: seq<Asset>)
    ensures var after := WriteAll(files, dir, assets);
            WrittenOnly(files, after, dir, {}) == files
                && WrittenOnly(files, after, dir, FinalSizes(assets).Keys) == after
  {
    WriteAllFiles(files, dir, assets);
  }

  lemma FinalSizeIsWritten(files: Files, dir: string, assets: seq<Asset>, name: string)
    requires name in FinalSizes(assets)
    ensures var after := WriteAll(files, dir, assets);
            Path(dir, name) in after && |after[Path(dir, name)]| == FinalSizes(assets)[name]
  {
    WriteAllFiles(files, dir, assets);
  }

  /** A size that cannot be read counts as zero. */
  function SafeFileSize(files: Files, p: Path, readable: bool): nat {
    if readable then SizeAt(files, p) else 0
  }

  /** How many bytes go unseen when assets are written in order and the sizes before the writes
      with the given numbers cannot be read. */
  function Unseen(files: Files, dir: string, assets: seq<Asset>, unreadable: set<nat>): nat {
    if assets == [] then 0
    else
      var front, last := assets[..|assets| - 1], assets[|assets| - 1];
      Unseen(files, dir, front, unreadable)
      + if |front| in unreadable then SizeAt(WriteAll(files, dir, front), Path(dir, last.name)) else 0
  }

  /** The files of the directory under the given names. */
  function Only(files: Files, dir: string, names: set<string>): Files {
    map p | p in files && p.dir == dir && p.name in names :: files[p]
  }

  lemma OneMoreUnread(files: Files, dir: string, unread: set<string>, name: string)
    requires name !in unread
    ensures TotalSize(Only(files, dir, unread + {name})) == TotalSize(Only(files, dir, unread))
              + SizeAt(files, Path(dir, name))
  {
    var p := Path(dir, name);
    if p in files {
      TotalSizeAfterWrite(Only(files, dir, unread), p, files[p]);
      assert Only(files, dir, unread + {name}) == Only(files, dir, unread)[p := files[p]];
    } else {
      assert Only(files, dir, unread + {name}) == Only(files, dir, unread);
    }
  }

  /** The net change of an upload, computed before anything is written. It is exact up to the
      files whose sizes could not be read, which it takes for new. */
  method AssetUploadNetDelta(files: Files, dir: string, assets: seq<Asset>, unreadable: set<string>)
    returns (netDelta: int)
    ensures netDelta == TotalSize(WriteAll(files, dir, assets)) - TotalSize(files)
                        + TotalSize(Only(files, dir, unreadable * FinalSizes(assets).Keys))
  {
    var finalSizes := CollectFinalSizes(assets);
    ghost var after := WriteAll(files, dir, assets);
    NoneAndAllWritten(files, dir, assets);
    netDelta := 0;
    assert unreadable * {} == {} && Only(files, dir, {}) == map[];
    var names, done := finalSizes.Keys, {};
    while names != {}
      invariant names + done == finalSizes.Keys && names !! done
      invariant netDelta == TotalSize(WrittenOnly(files, after, dir, done)) - TotalSize(files)
                            + TotalSize(Only(files, dir, unreadable * done))
      decreases names
    {
      var name :| name in names;
      var existing := SafeFileSize(files, Path(dir, name), name !in unreadable);
      netDelta := netDelta + finalSizes[name] - existing;
      FinalSizeIsWritten(files, dir, assets, name);
      OneMoreWritten(files, after, dir, done, name);
      if name in unreadable {
        OneMoreUnread(files, dir, unreadable * done, name);
        assert unreadable * (done + {name}) == unreadable * done + {name};
      } else {
        assert unreadable * (done + {name}) == unreadable * done;
      }
      names, done := names - {name}, done + {name};
    }
    assert done == finalSizes.Keys;
  }

  lemma OneMoreWritten(files: Files, after: Files, dir: string, done: set<string>, name: string)
    requires name !in done && Path(dir, name) in after
    ensures TotalSize(WrittenOnly(files, after, dir, done + {name}))
         == TotalSize(WrittenOnly(files, after, dir, done)) - SizeAt(files, Path(dir, name)) + |after[Path(dir, name)]|
  {
    var p := Path(dir, name);
    var before := WrittenOnly(files, after, dir, done);
    TotalSizeAfterWrite(before, p, after[p]);
    assert WrittenOnly(files, after, dir, done + {name}) == before[p := after[p]];
    assert SizeAt(before, p) == SizeAt(files, p);
  }

  /** By how much the adjustment after an upload misses the change of the total size: the bytes that went
      unseen, and what the write that failed, if one did, has made of its file. */
  function UploadError(before: Files, after: Files, dir: string, assets: seq<Asset>, failed: Option<nat>,
                       unreadable: set<nat>): int
    requires failed.Some? ==> failed.value < |assets|
  {
    if failed.None? then Unseen(before, dir, assets, unreadable)
    else
      var p, front := Path(dir, assets[failed.value].name), assets[..failed.value];
      SizeAt(WriteAll(before, dir, front), p) - SizeAt(after, p) + Unseen(before, dir, front, unreadable)
  }

  /** One more write: what it does to the files, their total size, and the bytes unseen. */
  lemma OneMoreWrite(files: Files, dir: string, assets: seq<Asset>, unreadable: set<nat>, i: nat)
    requires i < |assets|
    ensures var before, p := WriteAll(files, dir, assets[..i]), Path(dir, assets[i].name);
            && WriteAll(files, dir, assets[..i + 1]) == before[p := assets[i].data]
            && TotalSize(before[p := assets[i].data]) == TotalSize(before) - SizeAt(before, p) + |assets[i].data|
            && Unseen(files, dir, assets[..i + 1], unreadable) ==
               Unseen(files, dir, assets[..i], unreadable)
                   + SizeAt(before, p) - SafeFileSize(before, p, i !in unreadable)
  {
    assert assets[..i + 1][..i] == assets[..i];
    TotalSizeAfterWrite(WriteAll(files, dir, assets[..i]), Path(dir, assets[i].name), assets[i].data);
  }

  // ----- The tracked usage over a run

  /** The files and the tracked usage. */
  datatype Store = Store(files: Files, usage: nat)

  /** What a request does: the files it leaves, and by how much its adjustment of the usage misses their change. */
  datatype Change = Change(files: Files, error: int)

  function Clamp(n: int): nat {
    if n < 0 then 0 else n
  }

  ghost function After(s: Store, c: Change): Store {
    Store(c.files, Clamp(s.usage + TotalSize(c.files) - TotalSize(s.files) + c.error))
  }

  ghost function Run(s: Store, changes: seq<Change>): Store {
    if changes == [] then s else After(Run(s, changes[..|changes| - 1]), changes[|changes| - 1])
  }

  /** By how much the tracker is off. */
  ghost function Drift(s: Store): int {
    s.usage - TotalSize(s.files)
  }

  function Errors(changes: seq<Change>): int {
    if changes == [] then 0 else Errors(changes[..|changes| - 1]) + changes[|changes| - 1].error
  }

  /** What the clamp at zero has kept from the usage, over the run. */
  ghost function Withheld(s: Store, changes: seq<Change>): nat {
    if changes == [] then 0
    else
      var before, last := Run(s, changes[..|changes| - 1]), changes[|changes| - 1];
      Withheld(s, changes[..|changes| - 1]) + Clamp(-(Drift(before) + last.error + TotalSize(last.files)))
  }

  /** Over every run: the tracker is off by what it was off at the start, the errors, and what the clamp withheld. */
  lemma {:induction false} DriftOverRun(s: Store, changes: seq<Change>)
    ensures Drift(Run(s, changes)) == Drift(s) + Errors(changes) + Withheld(s, changes)
  {
    if changes != [] {
      DriftOverRun(s, changes[..|changes| - 1]);
    }
  }

  /** The clamp withholds nothing while the tracker is too high, if anything, and no request makes it lower. */
  lemma {:induction false} NothingWithheld(s: Store, changes: seq<Change>)
    requires Drift(s) >= 0 && forall c <- changes :: c.error >= 0
    ensures Withheld(s, changes) == 0 && Drift(Run(s, changes)) >= 0
  {
    if changes != [] {
      assert changes[|changes| - 1] in changes;
      NothingWithheld(s, changes[..|changes| - 1]);
    }
  }

  lemma {:induction false} NoErrors(changes: seq<Change>)
    requires forall c <- changes :: c.error >= 0
    ensures Errors(changes) >= 0
    ensures Errors(changes) == 0 <==> forall c <- changes :: c.error == 0
  {
    if changes != [] {
      var front, last := changes[..|changes| - 1], changes[|changes| - 1];
      assert changes == front + [last];
      NoErrors(front);
    }
  }

  /** From an accurate start, with sizes that cannot be read but no failed write that leaves a larger file: the tracker
      is accurate at the end exactly if every request was. */
  lemma AccurateAfterRunIff(s: Store, changes: seq<Change>)
    requires Drift(s) == 0 && forall c <- changes :: c.error >= 0
    ensures Drift(Run(s, changes)) == 0 <==> forall c <- changes :: c.error == 0
  {
    DriftOverRun(s, changes);
    NothingWithheld(s, changes);
    NoErrors(changes);
  }

  // ----- The endpoints

  datatype UploadResult = Uploaded | QuotaExceeded | WriteFailed(index: nat)

  datatype DeleteResult = Deleted | AssetMissing | DeleteFailed

  datatype RenameResult = Renamed | SourceMissing | TargetExists | RenameFailed

  /** The content directory together with the tracked usage. */
  class ContentStore {
    var files: Files
    var usage: nat
    const maxSize: Option<nat>

    ghost function View(): Store
      reads this
    {
      Store(files, usage)
    }

    constructor (maxSize: Option<nat>)
      ensures Drift(View()) == 0 && files == map[] && this.maxSize == maxSize
    {
      files, usage, this.maxSize := map[], 0, maxSize;
    }

    /** Adds to the counter, which never goes below zero. */
    method Adjust(delta: int)
      modifies `usage
      ensures usage == Clamp(old(usage) + delta)
    {
      usage := if usage + delta < 0 then 0 else usage + delta;
    }

    /** Adjusts the usage after a change of the files, unless by zero, which would change nothing. */
    method Settle(delta: int, ghost before: Files, ghost error: int)
      requires delta == TotalSize(files) - TotalSize(before) + error
      modifies `usage
      ensures View() == After(Store(before, old(usage)), Change(files, error))
    {
      if delta != 0 {
        Adjust(delta);
      }
    }

    /** A negative or zero delta always passes. */
    predicate HasQuota(delta: int)
      reads this
    {
      delta > 0 && maxSize.Some? ==> usage + delta <= maxSize.value
    }

    /** Writes a file. A write that fails may leave anything in that file, or no file. */
    method WriteBytes(p: Path, data: Bytes) returns (ok: bool)
      modifies `files
      ensures ok ==> files == old(files)[p := data]
      ensures forall q :: q != p ==> (q in files <==> q in old(files)) && (q in files ==> files[q] == old(files)[q])
    {
      ok := *;
      if ok {
        files := files[p := data];
      } else {
        var gone: bool := *;
        var left: Bytes := *;
        files := if gone then files - {p} else files[p := left];
      }
    }

    /** Writes the assets in order, up to the first write that fails, and sums up how the sizes change. */
    method WriteAssets(dir: string, assets: seq<Asset>, unreadable: set<nat>)
      returns (failed: Option<nat>, writtenDelta: int)
      modifies `files
      ensures failed.None? ==> files == WriteAll(old(files), dir, assets)
      ensures failed.Some? ==> failed.value < |assets| && IsPartial(old(files), dir, assets, failed.value)
      ensures writtenDelta == TotalSize(files) - TotalSize(old(files))
                              + UploadError(old(files), files, dir, assets, failed, unreadable)
    {
      writtenDelta := 0;
      for i := 0 to |assets|
        invariant files == WriteAll(old(files), dir, assets[..i])
        invariant writtenDelta == TotalSize(files) - TotalSize(old(files))
                  + Unseen(old(files), dir, assets[..i], unreadable)
      {
        var p := Path(dir, assets[i].name);
        var oldSize := SafeFileSize(files, p, i !in unreadable);
        var ok := WriteBytes(p, assets[i].data);
        if !ok {
          SizeAfterFailure(WriteAll(old(files), dir, assets[..i]), files, p);
          return Some(i), writtenDelta;
        }
        OneMoreWrite(old(files), dir, assets, unreadable, i);
        writtenDelta := writtenDelta + |assets[i].data| - oldSize;
      }
      assert assets[..|assets|] == assets;
      return None, writtenDelta;
    }

    /** The files after the writes before write `i`, but for the file of that write. */
    ghost predicate IsPartial(before: Files, dir: string, assets: seq<Asset>, i: nat)
      requires i < |assets|
      reads this
    {
      var written := WriteAll(before, dir, assets[..i]);
      forall q :: q != Path(dir, assets[i].name) ==>
          (q in files <==> q in written) && (q in files ==> files[q] == written[q])
    }

    /** Uploads assets into a post's directory. `unpredicted` are the names whose sizes cannot be
        read for the prediction, `unreadable` the writes before which a size cannot be read. What
        is on disk stays within the limit all the same, unless the tracker was too low. The adjustment misses
        the bytes that went unseen, and what a failed write did to the size of its file. */
    method UploadAssets(dir: string, assets: seq<Asset>, unpredicted: set<string>, unreadable: set<nat>)
      returns (result: UploadResult)
      modifies this
      ensures result.Uploaded? ==>
                && files == WriteAll(old(files), dir, assets)
                && View() == After(old(View()),
                     Change(files, UploadError(old(files), files, dir, assets, None, unreadable)))
      ensures result.Uploaded? && maxSize.Some? ==>
                TotalSize(files) <= TotalSize(old(files)) || TotalSize(files) + Drift(old(View())) <= maxSize.value
      ensures result.QuotaExceeded? ==> View() == old(View()) == After(old(View()), Change(files, 0))
      ensures result.QuotaExceeded? <==>
                var delta := TotalSize(WriteAll(old(files), dir, assets)) - TotalSize(old(files))
                             + TotalSize(Only(old(files), dir, unpredicted * FinalSizes(assets).Keys));
                delta > 0 && maxSize.Some? && old(usage) + delta > maxSize.value
      ensures result.WriteFailed? ==>
                && result.index < |assets|
                && IsPartial(old(files), dir, assets, result.index)
                && View() == After(old(View()), Change(files,
                     UploadError(old(files), files, dir, assets, Some(result.index), unreadable)))
    {
      var netDelta := AssetUploadNetDelta(files, dir, assets, unpredicted);
      if !HasQuota(netDelta) {
        return QuotaExceeded;
      }
      var failed, writtenDelta := WriteAssets(dir, assets, unreadable);
      Settle(writtenDelta, old(files), UploadError(old(files), files, dir, assets, failed, unreadable));
      return if failed.Some? then WriteFailed(failed.value) else Uploaded;
    }

    /** Deletes an asset. A size that cannot be read does not stop the deletion: the tracker then
        goes on counting the bytes of the file. */
    method DeleteAsset(p: Path, readable: bool) returns (result: DeleteResult)
      modifies this
      ensures result.AssetMissing? <==> p !in old(files)
      ensures files == if result.Deleted? then old(files) - {p} else old(files)
      ensures View() == After(old(View()), Change(files, if result.Deleted? && !readable then |old(files)[p]| else 0))
    {
      if p !in files {
        return AssetMissing;
      }
      var size: int := SafeFileSize(files, p, readable);
      var unlinked: bool := *;
      if !unlinked {
        return DeleteFailed;
      }
      TotalSizeWithout(files, p);
      files := files - {p};
      Adjust(-size);
      return Deleted;
    }

    method RenameAsset(from: Path, to: Path) returns (result: RenameResult)
      modifies `files
      ensures result.SourceMissing? <==> from !in old(files)
      ensures result.TargetExists? <==> from in old(files) && to in old(files)
      ensures files == if result.Renamed? then (old(files) - {from})[to := old(files)[from]] else old(files)
      ensures View() == After(old(View()), Change(files, 0))
    {
      if from !in files {
        return SourceMissing;
      }
      if to in files {
        return TargetExists;
      }
      var renamed: bool := *;
      if !renamed {
        return RenameFailed;
      }
      TotalSizeAfterRename(files, from, to);
      files := (files - {from})[to := files[from]];
      return Renamed;
    }
  }

  /** Two stores that differ in one file only differ in total by that file's sizes. */
  lemma SizeAfterFailure(before: Files, after: Files, p: Path)
    requires forall q :: q != p ==> (q in after <==> q in before) && (q in after ==> after[q] == before[q])
    ensures TotalSize(after) - SizeAt(after, p) == TotalSize(before) - SizeAt(before, p)
  {
    assert after - {p} == before - {p};
    if p in after { TotalSizeWithout(after, p); } else { assert after - {p} == after; }
    if p in before { TotalSizeWithout(before, p); } else { assert before - {p} == before; }
  }
}
