/**
 * The download queue Main builds for one album (Program.cs:268-288):
 * every album file is tested against its local path, with deletion; the
 * ones that pass are skipped, the rest are enqueued in album order.
 */
module QueueFill {
  import opened Files

  /** The queue built so far and the disk as the loop leaves it. */
  datatype Filled = Filled(queue: seq<AlbumFile>, files: map<string, nat>)

  /** Where an album file is stored locally. */
  type PathFn = AlbumFile -> string

  /** The local path Main gives an album file (Program.cs:270). */
  function LocalPaths(folder: string): PathFn
  {
    (f: AlbumFile) => Combine(folder, f.name)
  }

  /** The foreach loop over `albumFiles`, one file at a time, in order. */
  function Fill(files: map<string, nat>, albumFiles: seq<AlbumFile>, pathOf: PathFn): Filled
  {
    if albumFiles == [] then Filled([], files)
    else
      var prev := Fill(files, albumFiles[..|albumFiles| - 1], pathOf);
      var f := albumFiles[|albumFiles| - 1];
      var path := pathOf(f);
      if Passes(prev.files, f, path) then prev
      else Filled(prev.queue + [f], AfterTest(prev.files, f, path, true))
  }

  /** The album files that do not pass TestFile against the disk `files`, in album order. */
  function Unfinished(files: map<string, nat>, albumFiles: seq<AlbumFile>, pathOf: PathFn): (r: seq<AlbumFile>)
  {
    if albumFiles == [] then []
    else
      var f := albumFiles[0];
      (if Passes(files, f, pathOf(f)) then [] else [f]) + Unfinished(files, albumFiles[1..], pathOf)
  }

  /** Every file Unfinished lists is an album file that fails TestFile. */
  lemma {:induction false} UnfinishedFail(files: map<string, nat>, albumFiles: seq<AlbumFile>, pathOf: PathFn)
    ensures forall f :: f in Unfinished(files, albumFiles, pathOf) ==> f in albumFiles && !Passes(files, f, pathOf(f))
  {
    if albumFiles != [] {
      UnfinishedFail(files, albumFiles[1..], pathOf);
      forall f | f in Unfinished(files, albumFiles[1..], pathOf) ensures f in albumFiles {
        assert f in albumFiles[1..];
      }
    }
  }

  /** The paths of the album files that do not pass against `files`: the ones the loop deletes if present. */
  ghost function WrongPaths(files: map<string, nat>, albumFiles: seq<AlbumFile>, pathOf: PathFn): set<string>
  {
    set i | 0 <= i < |albumFiles| && !Passes(files, albumFiles[i], pathOf(albumFiles[i]))
      :: pathOf(albumFiles[i])
  }

  /** No two album files share a local path. */
  ghost predicate DistinctPaths(albumFiles: seq<AlbumFile>, pathOf: PathFn)
  {
    forall i, j :: 0 <= i < j < |albumFiles| ==> pathOf(albumFiles[i]) != pathOf(albumFiles[j])
  }

  /**
   * Album files with distinct, non-empty, relative names get distinct local
   * paths in a non-empty folder, which FillQueueIsUnfinished requires.
   */
  lemma LocalPathsDistinct(folder: string, albumFiles: seq<AlbumFile>)
    requires folder != []
    requires forall i :: 0 <= i < |albumFiles| ==> albumFiles[i].name != [] && !IsRooted(albumFiles[i].name)
    requires forall i, j :: 0 <= i < j < |albumFiles| ==> albumFiles[i].name != albumFiles[j].name
    ensures DistinctPaths(albumFiles, LocalPaths(folder))
  {
    forall i, j | 0 <= i < j < |albumFiles|
      ensures LocalPaths(folder)(albumFiles[i]) != LocalPaths(folder)(albumFiles[j])
    {
      if Combine(folder, albumFiles[i].name) == Combine(folder, albumFiles[j].name) {
        CombineInjective(folder, albumFiles[i].name, albumFiles[j].name);
      }
    }
  }

  lemma {:induction false} UnfinishedAppend(files: map<string, nat>, albumFiles: seq<AlbumFile>, f: AlbumFile,
                                            pathOf: PathFn)
    ensures Unfinished(files, albumFiles + [f], pathOf)
         == Unfinished(files, albumFiles, pathOf) + (if Passes(files, f, pathOf(f)) then [] else [f])
  {
    if albumFiles == [] {
      assert ([] + [f])[1..] == [];
    } else {
      assert (albumFiles + [f])[1..] == albumFiles[1..] + [f];
      UnfinishedAppend(files, albumFiles[1..], f, pathOf);
    }
  }

  lemma WrongPathsAppend(files: map<string, nat>, init: seq<AlbumFile>, f: AlbumFile, pathOf: PathFn)
    ensures WrongPaths(files, init + [f], pathOf)
         == WrongPaths(files, init, pathOf) + (if Passes(files, f, pathOf(f)) then {} else {pathOf(f)})
  {
    var all := init + [f];
    var wrong := WrongPaths(files, init, pathOf);
    var extra: set<string> := if Passes(files, f, pathOf(f)) then {} else {pathOf(f)};
    forall p | p in WrongPaths(files, all, pathOf) ensures p in wrong + extra {
      var i :| 0 <= i < |all| && !Passes(files, all[i], pathOf(all[i])) && p == pathOf(all[i]);
      if i < |init| {
        assert all[i] == init[i];
      }
    }
    forall p | p in wrong ensures p in WrongPaths(files, all, pathOf) {
      var i :| 0 <= i < |init| && !Passes(files, init[i], pathOf(init[i])) && p == pathOf(init[i]);
      assert all[i] == init[i];
    }
    assert all[|init|] == f;
  }

  /**
   * The disk after the loop is the disk before with exactly the
   * wrong-sized album files removed; absent files stay absent and every
   * other file keeps its length. Nothing is created.
   */
  lemma {:induction false} FillDisk(files: map<string, nat>, albumFiles: seq<AlbumFile>, pathOf: PathFn)
    ensures Fill(files, albumFiles, pathOf).files == files - WrongPaths(files, albumFiles, pathOf)
  {
    if albumFiles != [] {
      var init := albumFiles[..|albumFiles| - 1];
      var f := albumFiles[|albumFiles| - 1];
      var path := pathOf(f);
      FillDisk(files, init, pathOf);
      var wrong := WrongPaths(files, init, pathOf);
      var prev := Fill(files, init, pathOf);
      assert prev.files == files - wrong;
      var r := Fill(files, albumFiles, pathOf);
      assert r == if Passes(prev.files, f, path) then prev
                  else Filled(prev.queue + [f], AfterTest(prev.files, f, path, true));
      assert WrongPaths(files, albumFiles, pathOf)
          == wrong + (if Passes(files, f, path) then {} else {path}) by {
        WrongPathsAppend(files, init, f, pathOf);
        assert init + [f] == albumFiles;
      }
      if Passes(prev.files, f, path) {
        assert path !in wrong && Passes(files, f, path);
      } else {
        assert r.files == prev.files - {path};
        assert prev.files - {path} == files - (wrong + {path});
      }
    }
  }

  /**
   * With distinct local paths, the queue is the order-preserving sublist of
   * the album files that do not pass TestFile against the disk on entry.
   */
  lemma {:induction false} FillQueueIsUnfinished(files: map<string, nat>, albumFiles: seq<AlbumFile>, pathOf: PathFn)
    requires DistinctPaths(albumFiles, pathOf)
    ensures Fill(files, albumFiles, pathOf).queue == Unfinished(files, albumFiles, pathOf)
  {
    if albumFiles != [] {
      var init := albumFiles[..|albumFiles| - 1];
      var f := albumFiles[|albumFiles| - 1];
      var path := pathOf(f);
      assert DistinctPaths(init, pathOf) by {
        forall i, j | 0 <= i < j < |init| ensures pathOf(init[i]) != pathOf(init[j]) {
          assert init[i] == albumFiles[i] && init[j] == albumFiles[j];
        }
      }
      FillQueueIsUnfinished(files, init, pathOf);
      FillDisk(files, init, pathOf);
      var wrong := WrongPaths(files, init, pathOf);
      assert path !in wrong;
      assert Probe(files - wrong, path) == Probe(files, path);
      UnfinishedAppend(files, init, f, pathOf);
      assert init + [f] == albumFiles;
    }
  }

  /** A file that passes on entry is never enqueued, and the loop leaves it exactly as it was. */
  lemma SkippedUntouched(files: map<string, nat>, albumFiles: seq<AlbumFile>, pathOf: PathFn, i: nat)
    requires DistinctPaths(albumFiles, pathOf)
    requires i < |albumFiles| && Passes(files, albumFiles[i], pathOf(albumFiles[i]))
    ensures var path := pathOf(albumFiles[i]); var r := Fill(files, albumFiles, pathOf);
      && albumFiles[i] !in r.queue
      && path in r.files && r.files[path] == files[path]
  {
    var path := pathOf(albumFiles[i]);
    FillQueueIsUnfinished(files, albumFiles, pathOf);
    UnfinishedFail(files, albumFiles, pathOf);
    FillDisk(files, albumFiles, pathOf);
    assert path !in WrongPaths(files, albumFiles, pathOf);
  }

  /**
   * Why SkippedUntouched needs distinct paths: when a later album file
   * shares the path of one that passes, its test deletes the skipped file.
   */
  lemma SharedPathDeletesSkipped(files: map<string, nat>, a: AlbumFile, b: AlbumFile, pathOf: PathFn)
    requires pathOf(a) == pathOf(b) && Passes(files, a, pathOf(a)) && a.size != b.size
    ensures a !in Fill(files, [a, b], pathOf).queue
    ensures pathOf(a) !in Fill(files, [a, b], pathOf).files
  {
    var path := pathOf(a);
    assert [a, b][..1] == [a] && [a][..0] == [];
    assert Fill(files, [a], pathOf) == Filled([], files);
  }

  /**
   * The queue-filling loop of Main (Program.cs:268-288): returns the queue
   * and leaves the disk as Fill says.
   */
  method FillQueue(disk: Disk, albumFiles: seq<AlbumFile>, localFolderName: string) returns (queue: seq<AlbumFile>)
    modifies disk
    ensures Filled(queue, disk.files) == Fill(old(disk.files), albumFiles, LocalPaths(localFolderName))
  {
    ghost var files0 := disk.files;
    ghost var pathOf := LocalPaths(localFolderName);
    queue := [];
    for i := 0 to |albumFiles|
      invariant Filled(queue, disk.files) == Fill(files0, albumFiles[..i], pathOf)
    {
      assert albumFiles[..i + 1][..i] == albumFiles[..i];
      var albumFile := albumFiles[i];
      var localFilePath := Combine(localFolderName, albumFile.name);
      assert localFilePath == pathOf(albumFile);
      var ok, existingFileLength := TestFile(disk, albumFile, localFilePath, true);
      if !ok {
        queue := queue + [albumFile];
      }
    }
    assert albumFiles[..|albumFiles|] == albumFiles;
  }
}
