/** What every repository call changes in the tables, and what it leaves alone. */
module CatalogueEffects {
  import opened Texts
  import opened Wrappers
  import opened Catalogue
  import opened CatalogueTheorems

  // ----- Locations -----

  /** A live managed copy of the content for the torrent, or for none. */
  predicate Displaceable(l: Location, sha1: string, torrent: string) {
    l.managed && l.live && l.sha1 == sha1 && (l.torrent.None? || l.torrent == Some(torrent))
  }

  /** A row that gives way is only marked deleted; every other row stays as it is. */
  ghost predicate GivesWay(before: Location, after: Location, displaced: bool) {
    after == if displaced then before.(live := false) else before
  }

  /** One file of a scan: its own row, and the rows that give way to it. */
  lemma FileLocated(locations: map<string, Location>, sha1: string, torrent: string, artifact: nat, file: File)
    ensures var after := LocationScanned(locations, sha1, torrent, artifact, file);
            && after.Keys == locations.Keys + {file.remoteId}
            && after[file.remoteId] ==
               Location(sha1, Some(torrent), Some(artifact), file.place,
                        file.remoteId !in locations || locations[file.remoteId].managed, true)
            && forall r | r in locations && r != file.remoteId ::
                 GivesWay(locations[r], after[r], Displaceable(locations[r], sha1, torrent))
  {
  }

  /** SaveLocation: with a source some rows give way to its own one. */
  lemma SavedLocated(t: Tables, call: Call)
    requires call.SaveLocation? && Outcome(t, call).Ok?
    ensures var after, hash := Apply(t, call).locations, Lower(call.source);
            && after.Keys == t.locations.Keys + {call.remoteId}
            && forall r | r in t.locations && r != call.remoteId ::
                 GivesWay(t.locations[r], after[r],
                          call.source != "" && Displaceable(t.locations[r], call.sha1, hash))
    ensures Apply(t, call) == t.(locations := Apply(t, call).locations)
  {
    hide Lower, OfTorrent, Maximum, SavedLocation;
  }

  lemma SaveWrites(t: Tables, call: Call)
    requires call.SaveLocation? && Outcome(t, call).Ok?
    ensures var hash := Lower(call.source);
            var held := OfTorrent(t.artifacts, hash);
            var around := if call.source == "" then t.locations
                          else Retired(t.locations, call.sha1, hash, call.remoteId);
            Apply(t, call).locations ==
            around[call.remoteId := SavedLocation(around, call.remoteId, call.sha1,
                     if call.source == "" then None else Some(hash),
                     if call.source == "" || held == {} then None else Some(Maximum(held)), call.place, call.managed)]
  {
    hide Lower, OfTorrent, Maximum, SavedLocation, Retired;
  }

  lemma RetiredRow(locations: map<string, Location>, sha1: string, torrent: string, keep: string)
    requires keep in locations
    ensures keep in Retired(locations, sha1, torrent, keep)
    ensures Retired(locations, sha1, torrent, keep)[keep] == locations[keep]
  {
  }

  /** And its own row: live, of the content and at the place given, managed for good once it is. */
  lemma SavedRow(t: Tables, call: Call)
    requires call.SaveLocation? && Outcome(t, call).Ok?
    ensures call.remoteId in Apply(t, call).locations
    ensures var row, known := Apply(t, call).locations[call.remoteId], call.remoteId in t.locations;
            && row.sha1 == call.sha1 && row.place == call.place && row.live
            && row.managed == (call.managed || (known && t.locations[call.remoteId].managed))
            && row.torrent == (if call.source != "" then Some(Lower(call.source))
                               else if known then t.locations[call.remoteId].torrent else None)
  {
    SaveWrites(t, call);
    if call.remoteId in t.locations {
      RetiredRow(t.locations, call.sha1, Lower(call.source), call.remoteId);
    } else {
      assert call.remoteId !in Retired(t.locations, call.sha1, Lower(call.source), call.remoteId);
    }
    hide Apply, Outcome, Lower, OfTorrent, Maximum, Retired;
  }

  /** With a source the row goes to the torrent's artifact with the largest id, if it has any. */
  lemma SavedAttached(t: Tables, call: Call)
    requires call.SaveLocation? && Outcome(t, call).Ok?
    ensures call.remoteId in Apply(t, call).locations
    ensures var artifact := Apply(t, call).locations[call.remoteId].artifact;
            var known := if call.remoteId in t.locations then t.locations[call.remoteId].artifact else None;
            if call.source != "" && exists a | a in t.artifacts :: t.artifacts[a].torrent == Lower(call.source)
            then
              && artifact.Some? && artifact.value in t.artifacts
              && t.artifacts[artifact.value].torrent == Lower(call.source)
              && forall a | a in t.artifacts && t.artifacts[a].torrent == Lower(call.source) :: a <= artifact.value
            else artifact == known
  {
    hide Lower;
    if call.source != "" {
      var held := OfTorrent(t.artifacts, Lower(call.source));
      assert forall a :: a in held <==> a in t.artifacts && t.artifacts[a].torrent == Lower(call.source);
      hide Maximum, OfTorrent;
    }
  }

  predicate SaveLocationFits(t: Tables, call: Call)
    requires call.SaveLocation?
  {
    (call.source == "" || Lower(call.source) in t.torrents) && call.sha1 in t.contents
  }

  /** It fails exactly for an unknown torrent or content. */
  lemma SavedIff(t: Tables, call: Call)
    requires call.SaveLocation?
    ensures Outcome(t, call).Ok? <==> SaveLocationFits(t, call)
    ensures Outcome(t, call).Err? ==>
              Outcome(t, call).error ==
              if call.source != "" && Lower(call.source) !in t.torrents then NoRows else CheckFailed
  {
    hide Lower;
  }

  // ----- The locations of a whole scan -----

  predicate ListsId(files: seq<File>, remoteId: string) {
    exists i | 0 <= i < |files| :: files[i].remoteId == remoteId
  }

  predicate ListsContentOf(files: seq<File>, l: Location, torrent: string) {
    exists i | 0 <= i < |files| :: Displaceable(l, Lower(files[i].sha1), torrent)
  }

  /** No later file of the list takes the row or the content away. */
  predicate Lasting(files: seq<File>, i: nat)
    requires i < |files|
  {
    forall j | i < j < |files| ::
      files[j].remoteId != files[i].remoteId && Lower(files[j].sha1) != Lower(files[i].sha1)
  }

  predicate IsCopyOf(l: Location, file: File, torrent: string, artifact: nat) {
    l.live && l.sha1 == Lower(file.sha1) && l.torrent == Some(torrent) && l.artifact == Some(artifact)
    && l.place == file.place
  }

  ghost predicate AllLocated(before: map<string, Location>, after: map<string, Location>, files: seq<File>,
                             torrent: string, artifact: nat) {
    && (forall r :: r in after <==> r in before || ListsId(files, r))
    && (forall r | ListsId(files, r) ::
          r in after && after[r].artifact == Some(artifact) && after[r].torrent == Some(torrent))
    && (forall i | 0 <= i < |files| && Lasting(files, i) ::
          files[i].remoteId in after && IsCopyOf(after[files[i].remoteId], files[i], torrent, artifact))
    && (forall r | r in before && !ListsId(files, r) ::
          r in after && GivesWay(before[r], after[r], ListsContentOf(files, before[r], torrent)))
  }

  lemma ListsSnoc(files: seq<File>, r: string)
    requires files != []
    ensures ListsId(files, r) <==> ListsId(files[..|files| - 1], r) || files[|files| - 1].remoteId == r
  {
    var n := |files| - 1;
    assert forall i | 0 <= i < n :: files[..n][i] == files[i];
    if ListsId(files[..n], r) {
      var i :| 0 <= i < n && files[..n][i].remoteId == r;
      assert files[i].remoteId == r;
    }
    if ListsId(files, r) && files[n].remoteId != r {
      var i :| 0 <= i < |files| && files[i].remoteId == r;
      assert files[..n][i].remoteId == r;
    }
  }

  lemma ContentSnoc(files: seq<File>, l: Location, torrent: string)
    requires files != []
    ensures ListsContentOf(files, l, torrent) <==>
            ListsContentOf(files[..|files| - 1], l, torrent)
            || Displaceable(l, Lower(files[|files| - 1].sha1), torrent)
  {
    var n := |files| - 1;
    hide Displaceable, Lower;
    if ListsContentOf(files[..n], l, torrent) {
      var i :| 0 <= i < n && Displaceable(l, Lower(files[..n][i].sha1), torrent);
      assert Displaceable(l, Lower(files[i].sha1), torrent);
    }
    if ListsContentOf(files, l, torrent) && !Displaceable(l, Lower(files[n].sha1), torrent) {
      var i :| 0 <= i < |files| && Displaceable(l, Lower(files[i].sha1), torrent);
      assert Displaceable(l, Lower(files[..n][i].sha1), torrent);
    }
  }

  lemma LastingBefore(files: seq<File>, i: nat)
    requires i + 1 < |files| && Lasting(files, i)
    ensures Lasting(files[..|files| - 1], i)
    ensures var last := files[|files| - 1];
            last.remoteId != files[i].remoteId && Lower(last.sha1) != Lower(files[i].sha1)
  {
    hide Lower;
  }

  lemma {:induction false} FilesLocated(t: Tables, torrent: string, artifact: nat, files: seq<File>)
    requires FilesSaved(t, torrent, artifact, files).Ok?
    ensures AllLocated(t.locations, FilesSaved(t, torrent, artifact, files).value.0.locations, files, torrent, artifact)
  {
    if files == [] {
      assert forall r :: !ListsId(files, r);
    } else {
      var before, last := files[..|files| - 1], files[|files| - 1];
      FilesLocated(t, torrent, artifact, before);
      var middle := FilesSaved(t, torrent, artifact, before).value.0.locations;
      var after := FilesSaved(t, torrent, artifact, files).value.0.locations;
      assert after == LocationScanned(middle, Lower(last.sha1), torrent, artifact, last);
      hide FilesSaved;
      FileLocated(middle, Lower(last.sha1), torrent, artifact, last);
      hide LocationScanned;
      assert OneLocated(middle, after, last, torrent, artifact);
      hide OneLocated, AllLocated;
      LocatedNext(t.locations, middle, after, files, torrent, artifact);
    }
  }

  /** What one more file does to the rows. */
  ghost predicate OneLocated(middle: map<string, Location>, after: map<string, Location>, file: File, torrent: string,
                             artifact: nat) {
    && after.Keys == middle.Keys + {file.remoteId}
    && IsCopyOf(after[file.remoteId], file, torrent, artifact)
    && forall r | r in middle && r != file.remoteId ::
         GivesWay(middle[r], after[r], Displaceable(middle[r], Lower(file.sha1), torrent))
  }

  lemma LocatedNext(before: map<string, Location>, middle: map<string, Location>, after: map<string, Location>,
                    files: seq<File>, torrent: string, artifact: nat)
    requires files != [] && AllLocated(before, middle, files[..|files| - 1], torrent, artifact)
    requires OneLocated(middle, after, files[|files| - 1], torrent, artifact)
    ensures AllLocated(before, after, files, torrent, artifact)
  {
    ListedNext(before, middle, after, files, torrent, artifact);
    hide OneLocated, IsCopyOf, GivesWay, ListsContentOf, ListsId, Lasting, AllLocated, Displaceable, Lower;
    forall i | 0 <= i < |files| && Lasting(files, i)
      ensures files[i].remoteId in after && IsCopyOf(after[files[i].remoteId], files[i], torrent, artifact)
    {
      CopyNext(before, middle, after, files, torrent, artifact, i);
    }
    forall r | r in before && !ListsId(files, r)
      ensures r in after && GivesWay(before[r], after[r], ListsContentOf(files, before[r], torrent))
    {
      OtherNext(before, middle, after, files, torrent, artifact, r);
    }
    LocatedBy(before, after, files, torrent, artifact);
  }

  lemma LocatedBy(before: map<string, Location>, after: map<string, Location>, files: seq<File>, torrent: string,
                  artifact: nat)
    requires forall r :: r in after <==> r in before || ListsId(files, r)
    requires forall r | ListsId(files, r) ::
               r in after && after[r].artifact == Some(artifact) && after[r].torrent == Some(torrent)
    requires forall i | 0 <= i < |files| && Lasting(files, i) ::
               files[i].remoteId in after && IsCopyOf(after[files[i].remoteId], files[i], torrent, artifact)
    requires forall r | r in before && !ListsId(files, r) ::
               r in after && GivesWay(before[r], after[r], ListsContentOf(files, before[r], torrent))
    ensures AllLocated(before, after, files, torrent, artifact)
  {
    hide IsCopyOf, GivesWay, ListsContentOf, ListsId, Lasting;
  }

  lemma ListedNext(before: map<string, Location>, middle: map<string, Location>, after: map<string, Location>,
                   files: seq<File>, torrent: string, artifact: nat)
    requires files != [] && AllLocated(before, middle, files[..|files| - 1], torrent, artifact)
    requires OneLocated(middle, after, files[|files| - 1], torrent, artifact)
    ensures forall r :: r in after <==> r in before || ListsId(files, r)
    ensures forall r | ListsId(files, r) ::
              r in after && after[r].artifact == Some(artifact) && after[r].torrent == Some(torrent)
  {
    hide Displaceable, ListsContentOf, Lasting, Lower, ListsId;
    forall r
      ensures r in after <==> r in before || ListsId(files, r)
      ensures ListsId(files, r) ==>
                r in after && after[r].artifact == Some(artifact) && after[r].torrent == Some(torrent)
    {
      ListsSnoc(files, r);
    }
  }

  lemma CopyNext(before: map<string, Location>, middle: map<string, Location>, after: map<string, Location>,
                 files: seq<File>, torrent: string, artifact: nat, i: nat)
    requires files != [] && AllLocated(before, middle, files[..|files| - 1], torrent, artifact)
    requires OneLocated(middle, after, files[|files| - 1], torrent, artifact)
    requires i < |files| && Lasting(files, i)
    ensures files[i].remoteId in after && IsCopyOf(after[files[i].remoteId], files[i], torrent, artifact)
  {
    if i < |files| - 1 {
      LastingBefore(files, i);
      assert files[..|files| - 1][i] == files[i];
    }
    hide Lower, Lasting, ListsId, ListsContentOf;
  }

  lemma OtherNext(before: map<string, Location>, middle: map<string, Location>, after: map<string, Location>,
                  files: seq<File>, torrent: string, artifact: nat, r: string)
    requires files != [] && AllLocated(before, middle, files[..|files| - 1], torrent, artifact)
    requires OneLocated(middle, after, files[|files| - 1], torrent, artifact)
    requires r in before && !ListsId(files, r)
    ensures r in after && GivesWay(before[r], after[r], ListsContentOf(files, before[r], torrent))
  {
    ListsSnoc(files, r);
    ContentSnoc(files, before[r], torrent);
    hide Lower, Lasting, ListsId, ListsContentOf, IsCopyOf;
  }

  ghost predicate ScanRan(t: Tables, call: Call) {
    call.SaveScan? && Outcome(t, call).Ok?
  }

  /** No task of the artifact is at work. */
  predicate Unowned(tasks: map<string, Task>, a: Artifact) {
    a.createdBy.None? || (a.createdBy.value in tasks && !IsActive(tasks[a.createdBy.value].state))
  }

  /** A scan takes everything live from the artifact. */
  ghost predicate Emptied(locations: map<string, Location>, a: nat, files: seq<File>, torrent: string) {
    forall r | r in locations && locations[r].artifact == Some(a) && locations[r].live ::
      ListsId(files, r) || ListsContentOf(files, locations[r], torrent)
  }

  /** What a scan drops: other artifacts of the torrent that nobody works on and that it leaves without a live copy. */
  ghost predicate IsDropped(t: Tables, after: Tables, scan: Scan, keep: nat, a: nat) {
    && a in t.artifacts && a != keep && t.artifacts[a].torrent == scan.infoHash
    && Unowned(after.tasks, t.artifacts[a]) && Emptied(t.locations, a, scan.files, scan.infoHash)
  }

  /** The artifact that a scan or a task fills, by the ids that were given. */
  predicate IsFilled(artifacts: map<nat, Artifact>, after: Artifact, id: nat, torrent: string, gid: string,
                     result: string, deleteFileId: string, workDirId: string) {
    if id in artifacts
    then
      && after.torrent == artifacts[id].torrent && after.createdBy == artifacts[id].createdBy == Some(gid)
      && after.resultId == (if result != "" then result else artifacts[id].resultId)
      && after.deleteFileId == (if deleteFileId != "" then deleteFileId else artifacts[id].deleteFileId)
      && after.workDirId == (if workDirId != "" then workDirId else artifacts[id].workDirId)
    else
      after == Artifact(torrent, Some(gid), result, deleteFileId, workDirId)
      && (forall a | a in artifacts :: artifacts[a].createdBy != Some(gid) && a < id)
  }

  lemma FilledMeans(artifacts: map<nat, Artifact>, torrent: string, gid: string, task: ProviderTask, resultId: string)
    ensures IsFilled(artifacts, FilledArtifact(artifacts, torrent, gid, task, resultId), ArtifactFor(artifacts, gid),
                     torrent, gid, if resultId != "" then resultId else task.resultId,
                     task.deleteFileId, task.workDirId)
  {
    if CreatedBy(artifacts, gid) == {} {
      forall a | a in artifacts ensures artifacts[a].createdBy != Some(gid) {
        assert a !in CreatedBy(artifacts, gid);
      }
    }
  }

  ghost predicate LocationsAfterScan(t: Tables, after: Tables, scan: Scan, keep: nat) {
    && (forall i | 0 <= i < |scan.files| && Lasting(scan.files, i) ::
          && scan.files[i].remoteId in after.locations
          && IsCopyOf(after.locations[scan.files[i].remoteId], scan.files[i], scan.infoHash, keep))
    && (forall r | r in after.locations :: r in t.locations || ListsId(scan.files, r))
    && (forall r | r in t.locations && !ListsId(scan.files, r) ::
          var l := t.locations[r];
          if l.artifact.Some? && IsDropped(t, after, scan, keep, l.artifact.value) then r !in after.locations
          else r in after.locations
               && GivesWay(l, after.locations[r], ListsContentOf(scan.files, l, scan.infoHash)))
  }

  ghost predicate ArtifactsAfterScan(t: Tables, after: Tables, scan: Scan, task: ProviderTask, keep: nat) {
    && keep in after.artifacts
    && IsFilled(t.artifacts, after.artifacts[keep], keep, scan.infoHash,
                if task.jobGid != "" then task.jobGid else "direct-" + Lower(scan.infoHash),
                if scan.resultId != "" then scan.resultId else task.resultId, task.deleteFileId, task.workDirId)
    && (forall a | a in after.artifacts :: a in t.artifacts || a == keep)
    && (forall a | a in t.artifacts && a != keep ::
          if IsDropped(t, after, scan, keep, a) then a !in after.artifacts
          else a in after.artifacts && after.artifacts[a] == t.artifacts[a])
  }

  /**
   A scan leaves every file whose row and content no later file takes as a live copy of its artifact, marks
   other live copies of the listed contents deleted, and drops exactly the artifacts it empties, with their
   rows. Every other row stays.
   */
  lemma ScanPlaces(t: Tables, call: Call) returns (keep: nat)
    requires call.SaveScan? && ScanRan(t, call)
    ensures LocationsAfterScan(t, Apply(t, call), call.scan, keep)
    ensures ArtifactsAfterScan(t, Apply(t, call), call.scan, call.task, keep)
  {
    hide *;
    var scan, task := call.scan, call.task;
    keep := ArtifactFor(t.artifacts, ScanGid(scan, task));
    var done := BeforeDropping(t, call);
    var gone := Leftover(done, scan.infoHash, keep);
    DroppedIff(t, done, Apply(t, call), scan, keep, gone,
               FilledArtifact(t.artifacts, scan.infoHash, ScanGid(scan, task), task, scan.resultId));
    NotKept(done, scan, keep);
    PlacesAfter(t, done, Apply(t, call), scan, keep, gone);
    ArtifactsAfter(t, done, Apply(t, call), scan, task, keep, gone);
  }

  /** The tables when the files are saved and nothing has been dropped. */
  lemma BeforeDropping(t: Tables, call: Call) returns (done: Tables)
    requires call.SaveScan? && ScanRan(t, call)
    ensures var keep := ArtifactFor(t.artifacts, ScanGid(call.scan, call.task));
            var gone := Leftover(done, call.scan.infoHash, keep);
            && AllLocated(t.locations, done.locations, call.scan.files, call.scan.infoHash, keep)
            && done.artifacts == t.artifacts[keep := FilledArtifact(t.artifacts, call.scan.infoHash,
                                                       ScanGid(call.scan, call.task), call.task, call.scan.resultId)]
            && Apply(t, call).artifacts == done.artifacts - gone
            && Apply(t, call).locations == Cascaded(done.locations, gone)
            && Apply(t, call).tasks == done.tasks
  {
    var scan, task := call.scan, call.task;
    var keep := ArtifactFor(t.artifacts, ScanGid(scan, task));
    var started := ScanOpened(t, scan, task);
    done := FilesSaved(started, scan.infoHash, keep, scan.files).value.0;
    FilesLocated(started, scan.infoHash, keep, scan.files);
    FilesKeepTorrents(started, scan.infoHash, keep, scan.files);
    hide FilesSaved, AllLocated, Leftover, ArtifactFor, FilledArtifact, ScanGid, RootFor, ScanTasks, Absent,
         ScannedTorrent, IsHash, Cascaded;
  }

  lemma NotKept(done: Tables, scan: Scan, keep: nat)
    ensures keep !in Leftover(done, scan.infoHash, keep)
  {
  }

  lemma ArtifactsAfter(t: Tables, done: Tables, after: Tables, scan: Scan, task: ProviderTask, keep: nat,
                       gone: set<nat>)
    requires keep == ArtifactFor(t.artifacts, ScanGid(scan, task)) && keep !in gone
    requires done.artifacts == t.artifacts[keep := FilledArtifact(t.artifacts, scan.infoHash, ScanGid(scan, task), task,
                                                                  scan.resultId)]
    requires after.artifacts == done.artifacts - gone
    requires forall a :: a in gone <==> IsDropped(t, after, scan, keep, a)
    ensures ArtifactsAfterScan(t, after, scan, task, keep)
  {
    FilledMeans(t.artifacts, scan.infoHash, ScanGid(scan, task), task, scan.resultId);
    hide IsDropped, FilledArtifact, ArtifactFor, IsFilled, Lower;
  }

  lemma DroppedIff(t: Tables, done: Tables, after: Tables, scan: Scan, keep: nat, gone: set<nat>, row: Artifact)
    requires AllLocated(t.locations, done.locations, scan.files, scan.infoHash, keep)
    requires done.artifacts == t.artifacts[keep := row]
    requires gone == Leftover(done, scan.infoHash, keep) && after.tasks == done.tasks
    ensures forall a :: a in gone <==> IsDropped(t, after, scan, keep, a)
  {
    forall a ensures a in gone <==> IsDropped(t, after, scan, keep, a) {
      if a in t.artifacts && a != keep {
        EmptiedIff(t.locations, done.locations, scan, keep, a);
      }
    }
  }

  lemma EmptiedIff(before: map<string, Location>, after: map<string, Location>, scan: Scan, keep: nat, a: nat)
    requires AllLocated(before, after, scan.files, scan.infoHash, keep) && a != keep
    ensures HasLive(after, a) <==> !Emptied(before, a, scan.files, scan.infoHash)
  {
  }

  lemma PlacesAfter(t: Tables, done: Tables, after: Tables, scan: Scan, keep: nat, gone: set<nat>)
    requires AllLocated(t.locations, done.locations, scan.files, scan.infoHash, keep) && keep !in gone
    requires forall a :: a in gone <==> IsDropped(t, after, scan, keep, a)
    requires after.locations == Cascaded(done.locations, gone)
    ensures LocationsAfterScan(t, after, scan, keep)
  {
    hide IsDropped, Lower, Displaceable, ListsContentOf;
  }

  // ----- The other rows of a scan -----

  predicate ListsPath(files: seq<File>, path: string) {
    exists i | 0 <= i < |files| :: files[i].path == path
  }

  predicate ListsContent(files: seq<File>, sha1: string) {
    exists i | 0 <= i < |files| :: Lower(files[i].sha1) == sha1
  }

  predicate LastOfPath(files: seq<File>, i: nat)
    requires i < |files|
  {
    forall j | i < j < |files| :: files[j].path != files[i].path
  }

  /** The listed paths of the torrent are there with the content listed last; everything else stays. */
  ghost predicate RowsListed(before: map<(string, string), TorrentFile>, after: map<(string, string), TorrentFile>,
                             files: seq<File>, torrent: string) {
    && (forall k :: k in after <==> k in before || (k.0 == torrent && ListsPath(files, k.1)))
    && (forall i | 0 <= i < |files| && LastOfPath(files, i) ::
          (torrent, files[i].path) in after && after[(torrent, files[i].path)].sha1 == Lower(files[i].sha1))
    && (forall k | k in after && k.0 == torrent && ListsPath(files, k.1) :: after[k].present)
    && (forall k | k in before && !(k.0 == torrent && ListsPath(files, k.1)) :: k in after && after[k] == before[k])
  }

  lemma PathSnoc(files: seq<File>, path: string)
    requires files != []
    ensures ListsPath(files, path) <==> ListsPath(files[..|files| - 1], path) || files[|files| - 1].path == path
  {
    var n := |files| - 1;
    assert forall i | 0 <= i < n :: files[..n][i] == files[i];
    if ListsPath(files[..n], path) {
      var i :| 0 <= i < n && files[..n][i].path == path;
      assert files[i].path == path;
    }
    if ListsPath(files, path) && files[n].path != path {
      var i :| 0 <= i < |files| && files[i].path == path;
      assert files[..n][i].path == path;
    }
  }

  lemma {:induction false} FilesListed(t: Tables, torrent: string, artifact: nat, files: seq<File>)
    requires FilesSaved(t, torrent, artifact, files).Ok?
    ensures RowsListed(t.files, FilesSaved(t, torrent, artifact, files).value.0.files, files, torrent)
  {
    if files == [] {
      assert forall p :: !ListsPath(files, p);
    } else {
      var before, last := files[..|files| - 1], files[|files| - 1];
      FilesListed(t, torrent, artifact, before);
      var middle := FilesSaved(t, torrent, artifact, before).value.0.files;
      var after := FilesSaved(t, torrent, artifact, files).value.0.files;
      assert after == middle[(torrent, last.path) := ScannedFile(middle, torrent, last.path, Lower(last.sha1))];
      hide FilesSaved;
      RowsNext(t.files, middle, after, files, torrent);
    }
  }

  lemma RowsNext(before: map<(string, string), TorrentFile>, middle: map<(string, string), TorrentFile>,
                 after: map<(string, string), TorrentFile>, files: seq<File>, torrent: string)
    requires files != [] && RowsListed(before, middle, files[..|files| - 1], torrent)
    requires var last := files[|files| - 1];
             && after.Keys == middle.Keys + {(torrent, last.path)}
             && after[(torrent, last.path)].sha1 == Lower(last.sha1) && after[(torrent, last.path)].present
             && forall k | k in middle && k != (torrent, last.path) :: after[k] == middle[k]
    ensures RowsListed(before, after, files, torrent)
  {
    var n := |files| - 1;
    hide Lower, LastOfPath;
    forall k: (string, string)
      ensures ListsPath(files, k.1) <==> ListsPath(files[..n], k.1) || files[n].path == k.1
    {
      PathSnoc(files, k.1);
    }
    forall i | 0 <= i < |files| && LastOfPath(files, i)
      ensures (torrent, files[i].path) in after && after[(torrent, files[i].path)].sha1 == Lower(files[i].sha1)
    {
      if i < n {
        LastBefore(files, i);
      }
    }
    hide ListsPath;
  }

  lemma LastBefore(files: seq<File>, i: nat)
    requires i + 1 < |files| && LastOfPath(files, i)
    ensures LastOfPath(files[..|files| - 1], i) && files[..|files| - 1][i] == files[i]
    ensures files[|files| - 1].path != files[i].path
  {
  }

  /** After a scan exactly the listed paths of its torrent are present, with the content listed last. */
  lemma ScanFiles(t: Tables, call: Call)
    requires ScanRan(t, call)
    ensures var after, hash := Apply(t, call).files, call.scan.infoHash;
            && (forall k :: k in after <==> k in t.files || (k.0 == hash && ListsPath(call.scan.files, k.1)))
            && (forall i | 0 <= i < |call.scan.files| && LastOfPath(call.scan.files, i) ::
                  (hash, call.scan.files[i].path) in after
                  && after[(hash, call.scan.files[i].path)].sha1 == Lower(call.scan.files[i].sha1))
            && (forall k | k in after && k.0 == hash :: after[k].present <==> ListsPath(call.scan.files, k.1))
            && (forall k | k in t.files && k.0 != hash :: after[k] == t.files[k])
            && (forall k | k in t.files && k.0 == hash && !ListsPath(call.scan.files, k.1) ::
                  after[k] == t.files[k].(present := false))
  {
    var scan, task := call.scan, call.task;
    var started := ScanOpened(t, scan, task);
    FilesListed(started, scan.infoHash, ArtifactFor(t.artifacts, ScanGid(scan, task)), scan.files);
    assert started.files == Absent(t.files, scan.infoHash);
    hide FilesSaved, ScanOpened, Lower, ListsPath, LastOfPath, Leftover, ArtifactFor, ScanGid, IsHash;
  }

  /** The first name that is not empty: the one already stored, or else the first listed. */
  predicate IsFirstName(known: string, files: seq<File>, sha1: string, name: string) {
    if known != "" then name == known
    else if forall i | 0 <= i < |files| && Lower(files[i].sha1) == sha1 :: files[i].name == "" then name == ""
    else exists i | 0 <= i < |files| && Lower(files[i].sha1) == sha1 ::
           files[i].name == name != "" && forall j | 0 <= j < i && Lower(files[j].sha1) == sha1 :: files[j].name == ""
  }

  ghost predicate KeysListed(before: map<string, Content>, after: map<string, Content>, files: seq<File>) {
    forall c :: c in after <==> c in before || ListsContent(files, c)
  }

  ghost predicate SizesListed(before: map<string, Content>, after: map<string, Content>, files: seq<File>) {
    && (forall c | c in before :: c in after && after[c].sizeBytes == before[c].sizeBytes)
    && (forall i | 0 <= i < |files| ::
          Lower(files[i].sha1) in after && after[Lower(files[i].sha1)].sizeBytes == files[i].sizeBytes)
  }

  ghost predicate NamesListed(before: map<string, Content>, after: map<string, Content>, files: seq<File>) {
    forall c | c in after ::
      IsFirstName(if c in before then before[c].preferredName else "", files, c, after[c].preferredName)
  }

  /** Every listed content is there with its size; known sizes stay, and so does the first name. */
  ghost predicate ContentsListed(before: map<string, Content>, after: map<string, Content>, files: seq<File>) {
    KeysListed(before, after, files) && SizesListed(before, after, files) && NamesListed(before, after, files)
  }

  lemma ContentListSnoc(files: seq<File>, sha1: string)
    requires files != []
    ensures ListsContent(files, sha1) <==>
            ListsContent(files[..|files| - 1], sha1) || Lower(files[|files| - 1].sha1) == sha1
  {
    var n := |files| - 1;
    hide Lower;
    assert forall i | 0 <= i < n :: files[..n][i] == files[i];
    if ListsContent(files[..n], sha1) {
      var i :| 0 <= i < n && Lower(files[..n][i].sha1) == sha1;
      assert Lower(files[i].sha1) == sha1;
    }
    if ListsContent(files, sha1) && Lower(files[n].sha1) != sha1 {
      var i :| 0 <= i < |files| && Lower(files[i].sha1) == sha1;
      assert Lower(files[..n][i].sha1) == sha1;
    }
  }

  lemma NameSnoc(known: string, files: seq<File>, sha1: string, name: string)
    requires files != [] && IsFirstName(known, files[..|files| - 1], sha1, name)
    ensures var last := files[|files| - 1];
            IsFirstName(known, files, sha1,
                        if Lower(last.sha1) == sha1 && name == "" then last.name else name)
  {
    var n := |files| - 1;
    hide Lower;
    assert forall i | 0 <= i < n :: files[..n][i] == files[i];
    if known == "" && name != "" {
      var i :| 0 <= i < n && Lower(files[..n][i].sha1) == sha1 && files[..n][i].name == name
            && forall j | 0 <= j < i && Lower(files[..n][j].sha1) == sha1 :: files[..n][j].name == "";
      assert Lower(files[i].sha1) == sha1 && files[i].name == name;
      forall j | 0 <= j < i && Lower(files[j].sha1) == sha1 ensures files[j].name == "" {
        assert files[..n][j] == files[j];
      }
    } else if known == "" {
      forall i | 0 <= i < n && Lower(files[i].sha1) == sha1 ensures files[i].name == "" {
        assert files[..n][i] == files[i];
      }
    }
  }

  lemma {:induction false} FilesContents(t: Tables, torrent: string, artifact: nat, files: seq<File>)
    requires FilesSaved(t, torrent, artifact, files).Ok?
    ensures ContentsListed(t.contents, FilesSaved(t, torrent, artifact, files).value.0.contents, files)
  {
    if files == [] {
      assert forall c :: !ListsContent(files, c);
    } else {
      var before, last := files[..|files| - 1], files[|files| - 1];
      FilesContents(t, torrent, artifact, before);
      var middle := FilesSaved(t, torrent, artifact, before).value.0.contents;
      var after := FilesSaved(t, torrent, artifact, files).value.0.contents;
      assert after == ContentSaved(middle, Lower(last.sha1), last);
      assert Lower(last.sha1) in middle ==> middle[Lower(last.sha1)].sizeBytes == last.sizeBytes;
      hide FilesSaved;
      ContentsNext(t.contents, middle, after, files);
    }
  }

  lemma ContentsNext(before: map<string, Content>, middle: map<string, Content>, after: map<string, Content>,
                     files: seq<File>)
    requires files != [] && ContentsListed(before, middle, files[..|files| - 1])
    requires var last := files[|files| - 1];
             && after == ContentSaved(middle, Lower(last.sha1), last)
             && (Lower(last.sha1) in middle ==> middle[Lower(last.sha1)].sizeBytes == last.sizeBytes)
    ensures ContentsListed(before, after, files)
  {
    KeysNext(before, middle, after, files);
    SizesNext(before, middle, after, files);
    hide KeysListed, SizesListed, ContentSaved, Lower, IsFirstName;
    forall c | c in after
      ensures IsFirstName(if c in before then before[c].preferredName else "", files, c, after[c].preferredName)
    {
      NamesNext(before, middle, after, files, c);
    }
  }

  lemma KeysNext(before: map<string, Content>, middle: map<string, Content>, after: map<string, Content>,
                 files: seq<File>)
    requires files != [] && KeysListed(before, middle, files[..|files| - 1])
    requires after == ContentSaved(middle, Lower(files[|files| - 1].sha1), files[|files| - 1])
    ensures KeysListed(before, after, files)
  {
    var n := |files| - 1;
    assert after.Keys == middle.Keys + {Lower(files[n].sha1)};
    hide Lower, ContentSaved;
    forall c ensures ListsContent(files, c) <==> ListsContent(files[..n], c) || Lower(files[n].sha1) == c {
      ContentListSnoc(files, c);
    }
  }

  lemma SizesNext(before: map<string, Content>, middle: map<string, Content>, after: map<string, Content>,
                  files: seq<File>)
    requires files != [] && SizesListed(before, middle, files[..|files| - 1])
    requires var last := files[|files| - 1];
             && after == ContentSaved(middle, Lower(last.sha1), last)
             && (Lower(last.sha1) in middle ==> middle[Lower(last.sha1)].sizeBytes == last.sizeBytes)
    ensures SizesListed(before, after, files)
  {
    var n := |files| - 1;
    assert after[Lower(files[n].sha1)].sizeBytes == files[n].sizeBytes;
    assert forall c | c in middle :: c in after && after[c].sizeBytes == middle[c].sizeBytes;
    hide Lower, ContentSaved;
    forall i | 0 <= i < |files|
      ensures Lower(files[i].sha1) in after && after[Lower(files[i].sha1)].sizeBytes == files[i].sizeBytes
    {
      if i < n {
        assert files[..n][i] == files[i];
      }
    }
  }

  lemma NamesNext(before: map<string, Content>, middle: map<string, Content>, after: map<string, Content>,
                  files: seq<File>, c: string)
    requires files != [] && ContentsListed(before, middle, files[..|files| - 1])
    requires after == ContentSaved(middle, Lower(files[|files| - 1].sha1), files[|files| - 1]) && c in after
    ensures IsFirstName(if c in before then before[c].preferredName else "", files, c, after[c].preferredName)
  {
    hide Lower, IsFirstName, ListsContent;
    if c !in middle {
      NothingNamed(files[..|files| - 1], c);
    }
    NameSnoc(if c in before then before[c].preferredName else "", files, c,
             if c in middle then middle[c].preferredName else "");
  }

  lemma NothingNamed(files: seq<File>, sha1: string)
    requires !ListsContent(files, sha1)
    ensures IsFirstName("", files, sha1, "")
  {
  }

  /** A scan stores every listed content with its size; known sizes stay, and so does the first name. */
  lemma ScanContents(t: Tables, call: Call)
    requires ScanRan(t, call)
    ensures ContentsListed(t.contents, Apply(t, call).contents, call.scan.files)
  {
    var scan, task := call.scan, call.task;
    var started := ScanOpened(t, scan, task);
    FilesContents(started, scan.infoHash, ArtifactFor(t.artifacts, ScanGid(scan, task)), scan.files);
    assert started.contents == t.contents;
    hide FilesSaved, ScanOpened, Lower, Leftover, ArtifactFor, ScanGid, IsHash, ContentsListed;
  }

  /** A scan overwrites the columns of its torrent but for an assigned root, and settles its direct task. */
  lemma ScanTorrent(t: Tables, call: Call)
    requires ScanRan(t, call)
    ensures var after, scan := Apply(t, call), call.scan;
            && after.torrents.Keys == t.torrents.Keys + {scan.infoHash}
            && (forall h | h in t.torrents && h != scan.infoHash :: after.torrents[h] == t.torrents[h])
            && after.torrents[scan.infoHash] ==
               Torrent(scan.magnetURI, scan.name, scan.totalBytes, |scan.files|, after.torrents[scan.infoHash].strmRoot)
    ensures var after, scan := Apply(t, call), call.scan;
            var direct := "direct-" + Lower(scan.infoHash);
            if call.task.jobGid != "" then after.tasks == t.tasks
            else
              && after.tasks.Keys == t.tasks.Keys + {direct}
              && (forall g | g in t.tasks && g != direct :: after.tasks[g] == t.tasks[g])
              && after.tasks[direct] ==
                 (if direct in t.tasks then t.tasks[direct].(state := Succeeded)
                  else Task(scan.infoHash, "direct", scan.magnetURI, Succeeded, ""))
  {
    var scan, task := call.scan, call.task;
    var started := ScanOpened(t, scan, task);
    FilesKeepTorrents(started, scan.infoHash, ArtifactFor(t.artifacts, ScanGid(scan, task)), scan.files);
    assert Apply(t, call).torrents == started.torrents && Apply(t, call).tasks == started.tasks by {
      hide ScanOpened, Lower, IsHash, Leftover, ArtifactFor, ScanGid;
    }
    hide Apply, Outcome, FilesSaved, Lower, IsHash, ArtifactFor, FilledArtifact, RootFor;
  }

  /** The library folder of a scan: its category, and in it the first name that is given, or else its hash. */
  function FolderOf(scan: Scan, task: ProviderTask): string {
    (if task.safeCategory == "" then "" else task.safeCategory + "/") +
    (if task.safeName != "" then task.safeName else if scan.safeName != "" then scan.safeName else scan.infoHash)
  }

  /**
   A torrent keeps the root it has. Otherwise its root begins with its folder, is no other torrent's, and is
   that folder exactly if no other torrent has it.
   */
  lemma ScanRoot(t: Tables, call: Call)
    requires ScanRan(t, call)
    ensures var hash, folder := call.scan.infoHash, FolderOf(call.scan, call.task);
            && hash in Apply(t, call).torrents
            && var root := Apply(t, call).torrents[hash].strmRoot;
               if hash in t.torrents && t.torrents[hash].strmRoot != "" then root == t.torrents[hash].strmRoot
               else
                 && folder <= root && root != ""
                 && (forall h | h in t.torrents && h != hash :: t.torrents[h].strmRoot != root)
                 && (root == folder <==> forall h | h in t.torrents && h != hash :: t.torrents[h].strmRoot != folder)
  {
    GivenRoot(t, call);
    RootMeans(t.torrents, call.scan, call.task);
    hide Apply, Outcome, RootFor, FolderOf;
  }

  lemma GivenRoot(t: Tables, call: Call)
    requires ScanRan(t, call)
    ensures IsHash(call.scan.infoHash) && call.scan.infoHash in Apply(t, call).torrents
    ensures Apply(t, call).torrents[call.scan.infoHash].strmRoot == RootFor(t.torrents, call.scan, call.task)
  {
    var scan, task := call.scan, call.task;
    var started := ScanOpened(t, scan, task);
    FilesKeepTorrents(started, scan.infoHash, ArtifactFor(t.artifacts, ScanGid(scan, task)), scan.files);
    assert started.torrents[scan.infoHash].strmRoot == RootFor(t.torrents, scan, task);
    assert Apply(t, call).torrents == started.torrents by {
      hide ScanOpened, Lower, IsHash, Leftover, ArtifactFor, ScanGid, RootFor;
    }
    hide Apply, Outcome, FilesSaved, ScanOpened, RootFor;
  }

  lemma RootMeans(torrents: map<string, Torrent>, scan: Scan, task: ProviderTask)
    requires IsHash(scan.infoHash)
    ensures var hash, folder, root := scan.infoHash, FolderOf(scan, task), RootFor(torrents, scan, task);
            if hash in torrents && torrents[hash].strmRoot != "" then root == torrents[hash].strmRoot
            else
              && folder <= root && root != ""
              && (forall h | h in torrents && h != hash :: torrents[h].strmRoot != root)
              && (root == folder <==> forall h | h in torrents && h != hash :: torrents[h].strmRoot != folder)
  {
    var hash, folder := scan.infoHash, FolderOf(scan, task);
    assert |hash| == 40;
    FolderIsPreferred(scan, task);
    hide IsHash, PreferredRoot, FolderOf, Candidate, FirstFree, Lower;
    if !(hash in torrents && torrents[hash].strmRoot != "") {
      var after := torrents[hash := ScannedTorrent(torrents, scan)];
      assert after[hash].strmRoot == "";
      RootIsFirst(after, hash, folder);
      assert forall h | h in torrents && h != hash :: h in after && after[h] == torrents[h];
      assert forall h | h in after && h != hash :: h in torrents;
    }
    hide Roots, ScannedTorrent;
  }

  lemma FolderIsPreferred(scan: Scan, task: ProviderTask)
    requires |scan.infoHash| == 40
    ensures PreferredRoot(scan, task) == FolderOf(scan, task) != ""
  {
  }

  lemma RootIsFirst(torrents: map<string, Torrent>, hash: string, folder: string)
    requires |hash| == 40 && hash in torrents && torrents[hash].strmRoot == "" && folder != ""
    ensures var root := Candidate(folder, hash, FirstFree(Roots(torrents), folder, hash, 1));
            && folder <= root && root != ""
            && (forall h | h in torrents :: torrents[h].strmRoot != root)
            && (root == folder <==> forall h | h in torrents && h != hash :: torrents[h].strmRoot != folder)
  {
    var roots := Roots(torrents);
    var n := FirstFree(roots, folder, hash, 1);
    forall h | h in torrents ensures torrents[h].strmRoot in roots {
    }
    assert folder in roots <==> exists h | h in torrents && h != hash :: torrents[h].strmRoot == folder;
    if n > 1 {
      CandidatesDiffer(folder, hash, 1, n);
    }
    hide FirstFree;
  }

  /** Every file has a hash, a size, and the size of all that has its content. */
  ghost predicate SizesFit(contents: map<string, Content>, files: seq<File>) {
    && (forall i | 0 <= i < |files| ::
          && |files[i].sha1| == 40 && files[i].sizeBytes >= 0
          && (Lower(files[i].sha1) in contents ==> contents[Lower(files[i].sha1)].sizeBytes == files[i].sizeBytes))
    && (forall i, j | 0 <= i < |files| && 0 <= j < |files| && Lower(files[i].sha1) == Lower(files[j].sha1) ::
          files[i].sizeBytes == files[j].sizeBytes)
  }

  lemma LowerIsHash(s: string)
    ensures IsHash(Lower(s)) <==> |s| == 40
  {
  }

  /** A list of files is saved exactly when their sizes fit. */
  lemma {:induction false} FilesSavedIff(t: Tables, torrent: string, artifact: nat, files: seq<File>)
    ensures FilesSaved(t, torrent, artifact, files).Ok? <==> SizesFit(t.contents, files)
  {
    if files != [] {
      var before, last := files[..|files| - 1], files[|files| - 1];
      FilesSavedIff(t, torrent, artifact, before);
      LowerIsHash(last.sha1);
      var saved := FilesSaved(t, torrent, artifact, before);
      if saved.Ok? {
        FilesContents(t, torrent, artifact, before);
        hide IsHash, ContentSaved, LocationScanned, ScannedFile;
        assert FilesSaved(t, torrent, artifact, files).Ok? <==>
                 |last.sha1| == 40 && last.sizeBytes >= 0
                 && (Lower(last.sha1) in saved.value.0.contents ==>
                       saved.value.0.contents[Lower(last.sha1)].sizeBytes == last.sizeBytes);
        hide FilesSaved;
        FitNext(t.contents, saved.value.0.contents, files);
      } else {
        hide IsHash, Lower;
        if SizesFit(t.contents, files) {
          FitShorter(t.contents, files);
        }
      }
    }
  }

  lemma FitShorter(contents: map<string, Content>, files: seq<File>)
    requires files != [] && SizesFit(contents, files)
    ensures SizesFit(contents, files[..|files| - 1])
  {
    hide Lower;
  }

  lemma FitNext(before: map<string, Content>, middle: map<string, Content>, files: seq<File>)
    requires files != [] && SizesFit(before, files[..|files| - 1])
    requires ContentsListed(before, middle, files[..|files| - 1])
    ensures var last := files[|files| - 1];
            SizesFit(before, files) <==>
            && |last.sha1| == 40 && last.sizeBytes >= 0
            && (Lower(last.sha1) in middle ==> middle[Lower(last.sha1)].sizeBytes == last.sizeBytes)
  {
    var n := |files| - 1;
    KnownSize(before, middle, files[..n], files[n]);
    hide Lower, ContentsListed;
    forall i | 0 <= i < n ensures files[..n][i] == files[i] {
    }
  }

  /** What is stored after a list has the size of a file exactly if that fits everything before it. */
  lemma KnownSize(before: map<string, Content>, middle: map<string, Content>, files: seq<File>, file: File)
    requires ContentsListed(before, middle, files)
    ensures var sha1 := Lower(file.sha1);
            (sha1 in middle ==> middle[sha1].sizeBytes == file.sizeBytes) <==>
            && (sha1 in before ==> before[sha1].sizeBytes == file.sizeBytes)
            && forall i | 0 <= i < |files| && Lower(files[i].sha1) == sha1 :: files[i].sizeBytes == file.sizeBytes
  {
    hide Lower, IsFirstName;
  }

  /** A scan runs exactly when its hash is a hash, its job is known and its sizes fit. */
  lemma ScanRunsIff(t: Tables, call: Call)
    requires call.SaveScan?
    ensures Outcome(t, call).Ok? <==>
            && IsHash(call.scan.infoHash) && call.scan.totalBytes >= 0
            && (call.task.jobGid != "" ==> call.task.jobGid in t.tasks) && SizesFit(t.contents, call.scan.files)
  {
    if IsHash(call.scan.infoHash) {
      FilesSavedIff(ScanOpened(t, call.scan, call.task), call.scan.infoHash,
                    ArtifactFor(t.artifacts, ScanGid(call.scan, call.task)), call.scan.files);
    }
    hide IsHash, FilesSaved, SizesFit, Leftover, ArtifactFor, FilledArtifact, RootFor, ScanTasks, Absent,
         ScannedTorrent;
  }

  // ----- SaveTask -----

  /** The gid whose artifact a provider task fills. */
  function TaskGid(call: Call): string
    requires call.SaveTask?
  {
    if call.task.jobGid != "" then call.task.jobGid else "direct-" + Lower(call.infoHash)
  }

  predicate HasIds(task: ProviderTask) {
    task.resultId != "" || task.deleteFileId != "" || task.workDirId != ""
  }

  /** A call outside any job gives a torrent that has no task a direct one. */
  predicate Starts(t: Tables, call: Call)
    requires call.SaveTask?
  {
    && call.task.jobGid == "" && TaskGid(call) !in t.tasks
    && forall g | g in t.tasks :: t.tasks[g].torrent != Lower(call.infoHash)
  }

  lemma SaveTaskIff(t: Tables, call: Call)
    requires call.SaveTask?
    ensures Outcome(t, call).Ok? <==>
            && |call.infoHash| == 40 && call.totalBytes >= 0
            && (HasIds(call.task) ==> TaskGid(call) in t.tasks || Starts(t, call))
  {
    LowerIsHash(call.infoHash);
    hide Lower, IsHash, ArtifactFor, FilledArtifact, NamedTorrent;
  }

  /** The torrent keeps its name and size where none are given; the task and the artifact as said above. */
  lemma SaveTaskMeans(t: Tables, call: Call)
    requires call.SaveTask? && Outcome(t, call).Ok?
    ensures var after, hash := Apply(t, call).torrents, Lower(call.infoHash);
            && after.Keys == t.torrents.Keys + {hash}
            && (forall h | h in t.torrents && h != hash :: after[h] == t.torrents[h])
            && after[hash].magnetURI == call.magnetURI
            && (hash in t.torrents ==>
                  && after[hash].displayName == (if call.name != "" then call.name else t.torrents[hash].displayName)
                  && after[hash].totalBytes ==
                     (if call.totalBytes > 0 then call.totalBytes else t.torrents[hash].totalBytes)
                  && after[hash].fileCount == t.torrents[hash].fileCount
                  && after[hash].strmRoot == t.torrents[hash].strmRoot)
            && (hash !in t.torrents ==> after[hash] == Torrent(call.magnetURI, call.name, call.totalBytes, 0, ""))
    ensures Apply(t, call).tasks ==
            if Starts(t, call)
            then t.tasks[TaskGid(call) := Task(Lower(call.infoHash), "direct", call.magnetURI, JobState.Running, "")]
            else t.tasks
    ensures Apply(t, call) ==
            t.(torrents := Apply(t, call).torrents, tasks := Apply(t, call).tasks,
               artifacts := Apply(t, call).artifacts)
  {
    hide Lower, IsHash, ArtifactFor, FilledArtifact;
  }

  lemma SaveTaskFills(t: Tables, call: Call) returns (id: nat)
    requires call.SaveTask? && Outcome(t, call).Ok?
    ensures var after := Apply(t, call);
            if !HasIds(call.task) then after.artifacts == t.artifacts
            else
              && id in after.artifacts && TaskGid(call) in after.tasks
              && after.artifacts == t.artifacts[id := after.artifacts[id]]
              && IsFilled(t.artifacts, after.artifacts[id], id, after.tasks[TaskGid(call)].torrent, TaskGid(call),
                          call.task.resultId, call.task.deleteFileId, call.task.workDirId)
  {
    var gid := TaskGid(call);
    id := ArtifactFor(t.artifacts, gid);
    if HasIds(call.task) {
      assert gid in Apply(t, call).tasks && Apply(t, call).artifacts ==
        t.artifacts[id := FilledArtifact(t.artifacts, Apply(t, call).tasks[gid].torrent, gid, call.task,
                                         call.task.resultId)]
      by {
        hide Lower, IsHash, ArtifactFor, FilledArtifact, NamedTorrent;
      }
      FilledMeans(t.artifacts, Apply(t, call).tasks[gid].torrent, gid, call.task, call.task.resultId);
    }
    hide Lower, IsHash, ArtifactFor, FilledArtifact, NamedTorrent, IsFilled;
  }

  // ----- Deletions -----

  /** Some artifacts go, with all their rows; nothing else changes. */
  ghost predicate OnlyGone(before: Tables, after: Tables, gone: set<nat>) {
    && after == before.(artifacts := after.artifacts, locations := after.locations)
    && (forall a :: a in after.artifacts <==> a in before.artifacts && a !in gone)
    && (forall a | a in after.artifacts :: after.artifacts[a] == before.artifacts[a])
    && (forall r :: r in after.locations <==>
          r in before.locations
          && !(before.locations[r].artifact.Some? && before.locations[r].artifact.value in gone))
    && (forall r | r in after.locations :: after.locations[r] == before.locations[r])
  }

  lemma ArtifactGone(t: Tables, id: nat)
    ensures id == 0 ==> Apply(t, MarkArtifactDeleted(id)) == t
    ensures id != 0 ==> OnlyGone(t, Apply(t, MarkArtifactDeleted(id)), {id})
  {
  }

  lemma SourceGone(t: Tables, infoHash: string, gone: set<nat>)
    requires forall a :: a in gone <==> a in t.artifacts && t.artifacts[a].torrent == Lower(infoHash)
    ensures OnlyGone(t, Apply(t, MarkSourceLocationsDeleted(infoHash)), gone)
  {
    hide Lower;
    assert gone == OfTorrent(t.artifacts, Lower(infoHash));
  }

  /** A deleted row takes its artifact with it exactly if it was the last live one there. */
  lemma LocationGone(t: Tables, r: string)
    ensures var after := Apply(t, MarkLocationDeleted(r));
            if r !in t.locations then after == t
            else
              var marked := t.(locations := t.locations[r := t.locations[r].(live := false)]);
              var artifact := t.locations[r].artifact;
              if artifact.Some? && forall q | q in t.locations && q != r && t.locations[q].artifact == artifact ::
                                     !t.locations[q].live
              then OnlyGone(marked, after, {artifact.value}) else after == marked
  {
    if r in t.locations {
      var marked := t.(locations := t.locations[r := t.locations[r].(live := false)]);
      var artifact := t.locations[r].artifact;
      if artifact.Some? && HasLive(marked.locations, artifact.value) {
        var q :| q in marked.locations && marked.locations[q].artifact == artifact && marked.locations[q].live;
        assert q != r;
      }
      if artifact.Some? {
        forall q | q in t.locations && q != r && t.locations[q].artifact == artifact
          ensures t.locations[q].live ==> HasLive(marked.locations, artifact.value)
        {
          assert marked.locations[q] == t.locations[q];
        }
      }
    }
  }

  /** Marking seeds exactly the named paths, if all are there; the first one missing is the error. */
  lemma SeedingMeans(t: Tables, infoHash: string, paths: seq<string>)
    ensures var outcome := Outcome(t, MarkStrmSeeded(infoHash, paths));
            var hash := Lower(infoHash);
            && (outcome.Ok? <==> forall i | 0 <= i < |paths| :: (hash, paths[i]) in t.files)
            && (outcome.Err? ==>
                  exists i | 0 <= i < |paths| ::
                    && outcome.error == NoSuchFile(paths[i]) && (hash, paths[i]) !in t.files
                    && forall j | 0 <= j < i :: (hash, paths[j]) in t.files)
            && (outcome.Ok? ==>
                  && outcome.value == t.(files := outcome.value.files) && outcome.value.files.Keys == t.files.Keys
                  && forall k | k in t.files ::
                       outcome.value.files[k] ==
                       t.files[k].(seeded := t.files[k].seeded || (k.0 == hash && k.1 in paths)))
  {
    var hash := Lower(infoHash);
    hide Lower;
    SeededIff(t.files, hash, paths);
    if Seeded(t.files, hash, paths).Ok? {
      forall k ensures k in Seeded(t.files, hash, paths).value <==> k in t.files
        ensures k in t.files ==> Seeded(t.files, hash, paths).value[k] ==
                                 t.files[k].(seeded := t.files[k].seeded || (k.0 == hash && k.1 in paths))
      {
        MarksSeed(t.files, hash, paths, k);
      }
    }
    hide Seeded;
  }

  lemma {:induction false} SeededIff(files: map<(string, string), TorrentFile>, hash: string, paths: seq<string>)
    ensures Seeded(files, hash, paths).Ok? <==> forall i | 0 <= i < |paths| :: (hash, paths[i]) in files
    ensures Seeded(files, hash, paths).Err? ==>
              exists i | 0 <= i < |paths| ::
                && Seeded(files, hash, paths).error == NoSuchFile(paths[i]) && (hash, paths[i]) !in files
                && forall j | 0 <= j < i :: (hash, paths[j]) in files
  {
    if paths != [] {
      var n := |paths| - 1;
      SeededIff(files, hash, paths[..n]);
      assert forall i | 0 <= i < n :: paths[..n][i] == paths[i];
      if Seeded(files, hash, paths[..n]).Ok? {
        MarksSeed(files, hash, paths[..n], (hash, paths[n]));
      } else {
        var i :| 0 <= i < n && Seeded(files, hash, paths[..n]).error == NoSuchFile(paths[..n][i])
              && (hash, paths[..n][i]) !in files && forall j | 0 <= j < i :: (hash, paths[..n][j]) in files;
        assert (hash, paths[i]) !in files;
      }
    }
  }

  // ----- Jobs -----

  /** Only the tasks change, and of them only this row, which is there before and after. */
  ghost predicate OnlyTask(before: Tables, after: Tables, gid: string) {
    && after == before.(tasks := after.tasks) && after.tasks.Keys == before.tasks.Keys
    && forall g | g in before.tasks && g != gid :: after.tasks[g] == before.tasks[g]
  }

  /** Another active row of the source and torrent. */
  predicate Blocked(t: Tables, gid: string, source: string, torrent: string) {
    exists g | g in t.tasks && g != gid ::
      t.tasks[g].source == source && t.tasks[g].torrent == torrent
      && (t.tasks[g].state == Queued || t.tasks[g].state == JobState.Running)
  }

  lemma CreateMeans(t: Tables, job: Job)
    ensures var outcome := Outcome(t, CreateJob(job));
            var hash, source := Lower(job.infoHash), if job.source != "" then job.source else "aria2";
            && (outcome.Ok? <==>
                  && |job.infoHash| == 40 && job.gid !in t.tasks
                  && (job.state == Queued || job.state == JobState.Running ==> !Blocked(t, job.gid, source, hash)))
            && (outcome.Err? ==> outcome.error == if |job.infoHash| != 40 then CheckFailed else NotUnique)
            && (outcome.Ok? ==>
                  && outcome.value == t.(tasks := outcome.value.tasks, torrents := outcome.value.torrents)
                  && outcome.value.tasks == t.tasks[job.gid := Task(hash, source, job.magnetURI, job.state, "")]
                  && outcome.value.torrents ==
                     t.torrents[hash := if hash in t.torrents then t.torrents[hash].(magnetURI := job.magnetURI)
                                        else Torrent(job.magnetURI, "", 0, 0, "")])
  {
    LowerIsHash(job.infoHash);
    hide Lower, IsHash;
    var hash, source := Lower(job.infoHash), OrElse(job.source, "aria2");
    assert Blocked(t, job.gid, source, hash) <==> Occupied(t.tasks, job.gid, source, hash);
  }

  lemma UpdateMeans(t: Tables, job: Job)
    ensures var outcome := Outcome(t, UpdateJob(job));
            if job.gid !in t.tasks then outcome == Err(JobNotFound)
            else
              var row := t.tasks[job.gid];
              if row.state == Canceled && job.state != Canceled then outcome == Err(JobCanceled)
              else if (job.state == Queued || job.state == JobState.Running)
                      && Blocked(t, job.gid, row.source, row.torrent) then outcome == Err(NotUnique)
              else
                && outcome.Ok? && OnlyTask(t, outcome.value, job.gid)
                && outcome.value.tasks[job.gid] == Task(row.torrent, row.source, job.magnetURI, job.state, job.error)
  {
    if job.gid in t.tasks {
      var row := t.tasks[job.gid];
      assert Blocked(t, job.gid, row.source, row.torrent) <==> Occupied(t.tasks, job.gid, row.source, row.torrent);
    }
    hide Occupied, Blocked;
  }

  /** A job that has not succeeded is canceled, without an error. */
  lemma CancelMeans(t: Tables, gid: string)
    ensures var outcome := Outcome(t, CancelJob(gid));
            if gid !in t.tasks then outcome == Err(JobNotFound)
            else if t.tasks[gid].state == Succeeded then outcome == Err(WrongState(Succeeded))
            else
              && outcome.Ok? && OnlyTask(t, outcome.value, gid) && IsCanceled(outcome.value, gid)
              && outcome.value.tasks[gid] ==
                 t.tasks[gid].(state := Canceled,
                               error := if t.tasks[gid].state == Canceled then t.tasks[gid].error else "")
  {
  }

  /** The row goes, and the artifact that it made forgets it. */
  ghost predicate OnlyTaskGone(before: Tables, after: Tables, gid: string) {
    && after == before.(tasks := after.tasks, artifacts := after.artifacts)
    && (forall g :: g in after.tasks <==> g in before.tasks && g != gid)
    && (forall g | g in after.tasks :: after.tasks[g] == before.tasks[g])
    && after.artifacts.Keys == before.artifacts.Keys
    && (forall a | a in before.artifacts ::
          after.artifacts[a] == if before.artifacts[a].createdBy == Some(gid)
                                then before.artifacts[a].(createdBy := None)
                                else before.artifacts[a])
  }

  lemma DeleteMeans(t: Tables, gid: string)
    ensures OnlyTaskGone(t, Apply(t, DeleteJobAny(gid)), gid)
    ensures var outcome := Outcome(t, DeleteJob(gid));
            if gid !in t.tasks then outcome == Err(JobNotFound)
            else if t.tasks[gid].state == Queued || t.tasks[gid].state == JobState.Running then
              outcome == Err(WrongState(t.tasks[gid].state))
            else outcome == Ok(Apply(t, DeleteJobAny(gid)))
  {
  }

  lemma RecoverMeans(t: Tables, sources: set<string>)
    ensures var after := Apply(t, RecoverRunningJobs(sources));
            && after == t.(tasks := after.tasks) && after.tasks.Keys == t.tasks.Keys
            && forall g | g in t.tasks ::
                 after.tasks[g] ==
                 if t.tasks[g].state == JobState.Running && t.tasks[g].source in sources
                 then Task(t.tasks[g].torrent, t.tasks[g].source, t.tasks[g].magnetURI, Queued, "") else t.tasks[g]
  {
  }
}
