/**
 Publishing a scan and scanning the same result again (internal/ingest/service.go on top of
 internal/storage/sqlite/ingest.go): what SaveScan says about a file and what it stores agree, so a
 published result needs no STRM again unless it lists one path with two contents.
 */
module Reseeding {
  import opened Texts
  import opened Wrappers
  import opened Catalogue
  import opened CatalogueTheorems

  /** The paths that publishing writes and then marks: those of videos that need their STRM. */
  function Published(files: seq<File>, needs: seq<bool>, videos: set<string>): seq<string>
    requires |needs| == |files|
  {
    if files == [] then []
    else
      var last := |files| - 1;
      Published(files[..last], needs[..last], videos) +
      if needs[last] && files[last].path in videos then [files[last].path] else []
  }

  lemma {:induction false} PublishedHas(files: seq<File>, needs: seq<bool>, videos: set<string>, path: string)
    requires |needs| == |files|
    ensures path in Published(files, needs, videos) <==>
            exists k | 0 <= k < |files| :: files[k].path == path && needs[k] && path in videos
  {
    if files != [] {
      var last := |files| - 1;
      PublishedHas(files[..last], needs[..last], videos, path);
      if k :| 0 <= k < last && files[..last][k].path == path && needs[..last][k] && path in videos {
        assert files[k].path == path && needs[k];
      }
      if k :| 0 <= k < last && files[k].path == path && needs[k] && path in videos {
        assert files[..last][k].path == path && needs[..last][k];
      }
    }
  }

  /** A file's flag says whether its path was seeded and has kept its content up to that file. */
  lemma {:induction false} FlagTells(t: Tables, torrent: string, artifact: nat, files: seq<File>, i: nat)
    requires FilesSaved(t, torrent, artifact, files).Ok? && i < |files|
    ensures var needs := FilesSaved(t, torrent, artifact, files).value.1;
            var key := (torrent, files[i].path);
            && |needs| == |files|
            && needs[i] == !(IsSeeded(t, key) && !ListsOther(files[..i + 1], key.1, t.files[key].sha1))
  {
    hide ContentSaved, LocationScanned, ListsOther;
    var before := files[..|files| - 1];
    if i == |files| - 1 {
      assert files[..i + 1] == files;
      FilesSeed(t, torrent, artifact, files, (torrent, files[i].path));
      FlagPerFile(t, torrent, artifact, before);
    } else {
      assert before[..i + 1] == files[..i + 1];
      FlagTells(t, torrent, artifact, before, i);
    }
  }

  lemma {:induction false} FlagPerFile(t: Tables, torrent: string, artifact: nat, files: seq<File>)
    requires FilesSaved(t, torrent, artifact, files).Ok?
    ensures |FilesSaved(t, torrent, artifact, files).value.1| == |files|
  {
    hide FileSaved;
    if files != [] {
      FlagPerFile(t, torrent, artifact, files[..|files| - 1]);
    }
  }

  /** After a scan a listed path has the content of its last listing, whose flag tells if it is seeded. */
  lemma {:induction false} LastListingStays(t: Tables, torrent: string, artifact: nat, files: seq<File>, i: nat)
    returns (k: nat)
    requires FilesSaved(t, torrent, artifact, files).Ok? && i < |files|
    ensures k < |files| && files[k].path == files[i].path
    ensures var (t', needs) := FilesSaved(t, torrent, artifact, files).value;
            var key := (torrent, files[i].path);
            && |needs| == |files| && key in t'.files
            && t'.files[key].sha1 == Lower(files[k].sha1) && needs[k] == !t'.files[key].seeded
  {
    hide ContentSaved, LocationScanned;
    var last := |files| - 1;
    FlagPerFile(t, torrent, artifact, files);
    FlagPerFile(t, torrent, artifact, files[..last]);
    if files[last].path == files[i].path {
      k := last;
    } else {
      k := LastListingStays(t, torrent, artifact, files[..last], i);
    }
  }

  /** The content of a file is stored with the file's size. */
  predicate Fits(contents: map<string, Content>, file: File) {
    var sha1 := Lower(file.sha1);
    IsHash(sha1) && file.sizeBytes >= 0 && sha1 in contents && contents[sha1].sizeBytes == file.sizeBytes
  }

  lemma {:induction false} SavedFit(t: Tables, torrent: string, artifact: nat, files: seq<File>)
    requires FilesSaved(t, torrent, artifact, files).Ok?
    ensures var after := FilesSaved(t, torrent, artifact, files).value.0.contents;
            && (forall k | 0 <= k < |files| :: Fits(after, files[k]))
            && (forall f | Fits(t.contents, f) :: Fits(after, f))
  {
    hide Lower, IsHash, LocationScanned;
    if files != [] {
      var before := files[..|files| - 1];
      SavedFit(t, torrent, artifact, before);
      var middle := FilesSaved(t, torrent, artifact, before).value.0.contents;
      var file := files[|files| - 1];
      assert forall f | Fits(middle, f) :: Fits(ContentSaved(middle, Lower(file.sha1), file), f);
      forall k | 0 <= k < |before| ensures Fits(middle, files[k]) {
        assert before[k] == files[k];
      }
    }
  }

  lemma {:induction false} FittingAreSaved(t: Tables, torrent: string, artifact: nat, files: seq<File>)
    requires forall k | 0 <= k < |files| :: Fits(t.contents, files[k])
    ensures FilesSaved(t, torrent, artifact, files).Ok?
  {
    if files != [] {
      var before := files[..|files| - 1];
      FittingAreSaved(t, torrent, artifact, before);
      SavedFit(t, torrent, artifact, before);
      assert Fits(t.contents, files[|files| - 1]);
      hide Fits, FilesSaved, FileSaved;
    }
  }

  lemma {:induction false} ListedCanBeMarked(files: map<(string, string), TorrentFile>, torrent: string,
                                             paths: seq<string>)
    requires forall p | p in paths :: (torrent, p) in files
    ensures Seeded(files, torrent, paths).Ok?
  {
    if paths != [] {
      var before := paths[..|paths| - 1];
      ListedCanBeMarked(files, torrent, before);
      MarksSeed(files, torrent, before, (torrent, paths[|paths| - 1]));
    }
  }

  lemma SameUpToEach(files: seq<File>, path: string, i: nat, k: nat)
    requires i < |files| && k < |files| && files[i].path == path && files[k].path == path
    ensures (forall n | 0 <= n < |files| && files[n].path == path ::
             !ListsOther(files[..n + 1], path, Lower(files[k].sha1)))
       <==> !ListsOther(files, path, Lower(files[i].sha1))
  {
    var sha1 := Lower(files[k].sha1);
    if ListsOther(files, path, sha1) {
      var n :| 0 <= n < |files| && files[n].path == path && Lower(files[n].sha1) != sha1;
      assert files[..n + 1][n] == files[n];
      assert ListsOther(files[..n + 1], path, sha1);
    } else {
      forall n | 0 <= n < |files| && files[n].path == path ensures !ListsOther(files[..n + 1], path, sha1) {
        assert forall m | 0 <= m < n + 1 :: files[..n + 1][m] == files[m];
      }
    }
  }

  /** What a successful scan leaves for the next one. */
  lemma PublishedIsSeeded(t: Tables, scan: Scan, task: ProviderTask, videos: set<string>, i: nat) returns (k: nat)
    requires ScanSaved(t, scan, task).Ok? && i < |scan.files| && scan.files[i].path in videos
    ensures k < |scan.files| && scan.files[k].path == scan.files[i].path
    ensures var (t1, needs) := ScanSaved(t, scan, task).value;
            && |needs| == |scan.files|
            && var published := StrmsSeeded(t1, scan.infoHash, Published(scan.files, needs, videos));
            var key := (scan.infoHash, scan.files[i].path);
            && published.Ok? && IsSeeded(published.value, key)
            && published.value.files[key].sha1 == Lower(scan.files[k].sha1)
            && published.value.contents == t1.contents && published.value.tasks == t1.tasks
  {
    hide ArtifactFor, FilledArtifact, FilesSaved, RootFor, Leftover, ListsOther, ScanOpened, Seeded, Published;
    var artifact := ArtifactFor(t.artifacts, ScanGid(scan, task));
    var start := ScanOpened(t, scan, task);
    var (t1, needs) := ScanSaved(t, scan, task).value;
    FlagPerFile(start, scan.infoHash, artifact, scan.files);
    var paths := Published(scan.files, needs, videos);
    forall p | p in paths ensures (scan.infoHash, p) in t1.files {
      PublishedHas(scan.files, needs, videos, p);
      var n :| 0 <= n < |scan.files| && scan.files[n].path == p;
      var _ := LastListingStays(start, scan.infoHash, artifact, scan.files, n);
    }
    assert Lower(scan.infoHash) == scan.infoHash;
    ListedCanBeMarked(t1.files, scan.infoHash, paths);
    k := LastListingStays(start, scan.infoHash, artifact, scan.files, i);
    PublishedHas(scan.files, needs, videos, scan.files[i].path);
    MarksSeed(t1.files, scan.infoHash, paths, (scan.infoHash, scan.files[i].path));
  }

  lemma RescanIsSaved(t: Tables, scan: Scan, again: ProviderTask)
    requires IsHash(scan.infoHash) && scan.totalBytes >= 0 && (again.jobGid != "" ==> again.jobGid in t.tasks)
    requires forall k | 0 <= k < |scan.files| :: Fits(t.contents, scan.files[k])
    ensures ScanSaved(t, scan, again).Ok?
    ensures |ScanSaved(t, scan, again).value.1| == |scan.files|
  {
    hide ArtifactFor, FilledArtifact, FilesSaved, RootFor, Leftover, Fits, IsHash;
    var artifact := ArtifactFor(t.artifacts, ScanGid(scan, again));
    FittingAreSaved(ScanOpened(t, scan, again), scan.infoHash, artifact, scan.files);
    FlagPerFile(ScanOpened(t, scan, again), scan.infoHash, artifact, scan.files);
  }

  lemma ScannedFits(t: Tables, scan: Scan, task: ProviderTask)
    requires ScanSaved(t, scan, task).Ok?
    ensures forall k | 0 <= k < |scan.files| :: Fits(ScanSaved(t, scan, task).value.0.contents, scan.files[k])
    ensures t.tasks.Keys <= ScanSaved(t, scan, task).value.0.tasks.Keys
  {
    hide ArtifactFor, FilledArtifact, FilesSaved, RootFor, Leftover, Fits, IsHash;
    var artifact := ArtifactFor(t.artifacts, ScanGid(scan, task));
    SavedFit(ScanOpened(t, scan, task), scan.infoHash, artifact, scan.files);
    FilesKeepTorrents(ScanOpened(t, scan, task), scan.infoHash, artifact, scan.files);
  }

  /** The flags of a rescan, for a path that is seeded. */
  lemma RescanFlags(t: Tables, scan: Scan, again: ProviderTask, k: nat)
    requires ScanSaved(t, scan, again).Ok? && k < |scan.files|
    requires IsSeeded(t, (scan.infoHash, scan.files[k].path))
    ensures var key := (scan.infoHash, scan.files[k].path);
            var needs := ScanSaved(t, scan, again).value.1;
            |needs| == |scan.files| && needs[k] == ListsOther(scan.files[..k + 1], key.1, t.files[key].sha1)
  {
    hide ArtifactFor, FilledArtifact, FilesSaved, RootFor, Leftover, ListsOther, IsHash;
    FlagTells(ScanOpened(t, scan, again), scan.infoHash, ArtifactFor(t.artifacts, ScanGid(scan, again)), scan.files, k);
  }

  /**
   Scanning a result, publishing it and scanning it again always succeeds, and the second scan asks
   for no STRM of a path exactly when the result lists the path with one content only.
   */
  lemma RescanNeedsNothing(t: Tables, scan: Scan, task: ProviderTask, again: ProviderTask, videos: set<string>, i: nat)
    requires ScanSaved(t, scan, task).Ok? && (again.jobGid != "" ==> again.jobGid in t.tasks)
    requires i < |scan.files| && scan.files[i].path in videos
    ensures var (t1, needs) := ScanSaved(t, scan, task).value;
            && |needs| == |scan.files|
            && var published := StrmsSeeded(t1, scan.infoHash, Published(scan.files, needs, videos));
            && published.Ok?
            && var rescan := ScanSaved(published.value, scan, again);
            && rescan.Ok? && |rescan.value.1| == |scan.files|
            && ((forall k | 0 <= k < |scan.files| && scan.files[k].path == scan.files[i].path ::
                 !rescan.value.1[k]) <==>
                !ListsOther(scan.files, scan.files[i].path, Lower(scan.files[i].sha1)))
  {
    var last := PublishedIsSeeded(t, scan, task, videos, i);
    ScannedFits(t, scan, task);
    var (t1, needs) := ScanSaved(t, scan, task).value;
    var published := StrmsSeeded(t1, scan.infoHash, Published(scan.files, needs, videos)).value;
    hide ScanSaved, StrmsSeeded, Fits, ListsOther, Published;
    assert IsHash(scan.infoHash) && scan.totalBytes >= 0 by { SavedScanIsValid(t, scan, task); }
    RescanIsSaved(published, scan, again);
    forall k | 0 <= k < |scan.files| && scan.files[k].path == scan.files[i].path
      ensures ScanSaved(published, scan, again).value.1[k] ==
              ListsOther(scan.files[..k + 1], scan.files[i].path, Lower(scan.files[last].sha1))
    {
      RescanFlags(published, scan, again, k);
    }
    SameUpToEach(scan.files, scan.files[i].path, i, last);
  }

  lemma SavedScanIsValid(t: Tables, scan: Scan, task: ProviderTask)
    requires ScanSaved(t, scan, task).Ok?
    ensures IsHash(scan.infoHash) && scan.totalBytes >= 0
  {
  }
}
