/** What holds of the catalogue over every sequence of repository calls. */
module CatalogueTheorems {
  import opened Texts
  import opened Wrappers
  import opened Catalogue

  datatype Call =
    | SaveTask(magnetURI: string, infoHash: string, name: string, totalBytes: int, task: ProviderTask)
    | SaveScan(scan: Scan, task: ProviderTask)
    | SaveLocation(sha1: string, remoteId: string, place: Place, managed: bool, source: string)
    | MarkLocationDeleted(remoteId: string)
    | MarkArtifactDeleted(id: nat)
    | MarkSourceLocationsDeleted(infoHash: string)
    | MarkStrmSeeded(infoHash: string, paths: seq<string>)
    | CreateJob(job: Job)
    | UpdateJob(job: Job)
    | CancelJob(gid: string)
    | DeleteJob(gid: string)
    | DeleteJobAny(gid: string)
    | RecoverRunningJobs(sources: set<string>)

  ghost function Outcome(t: Tables, call: Call): Result<Tables, Error> {
    match call
    case SaveTask(magnetURI, infoHash, name, totalBytes, task) =>
      TaskSaved(t, magnetURI, infoHash, name, totalBytes, task)
    case SaveScan(scan, task) =>
      (match ScanSaved(t, scan, task)
       case Err(e) => Err(e)
       case Ok(done) => Ok(done.0))
    case SaveLocation(sha1, remoteId, place, managed, source) =>
      LocationSaved(t, sha1, remoteId, place, managed, source)
    case MarkLocationDeleted(remoteId) => Ok(LocationDeleted(t, remoteId))
    case MarkArtifactDeleted(id) => Ok(ArtifactDeleted(t, id))
    case MarkSourceLocationsDeleted(infoHash) => Ok(SourceDeleted(t, infoHash))
    case MarkStrmSeeded(infoHash, paths) => StrmsSeeded(t, infoHash, paths)
    case CreateJob(job) => JobCreated(t, job)
    case UpdateJob(job) => JobUpdated(t, job)
    case CancelJob(gid) => JobCancelled(t, gid)
    case DeleteJob(gid) => JobDeleted(t, gid)
    case DeleteJobAny(gid) => Ok(TaskDropped(t, gid))
    case RecoverRunningJobs(sources) => Ok(Recovered(t, sources))
  }

  /** One transaction: an error leaves the tables alone. */
  ghost function Apply(t: Tables, call: Call): Tables {
    match Outcome(t, call)
    case Err(_) => t
    case Ok(t') => t'
  }

  ghost function Run(t: Tables, calls: seq<Call>): Tables {
    if calls == [] then t else Apply(Run(t, calls[..|calls| - 1]), calls[|calls| - 1])
  }

  // ----- One live managed copy per content and torrent -----

  predicate LiveCopy(l: Location, sha1: string, torrent: Option<string>) {
    l.managed && l.live && l.sha1 == sha1 && l.torrent == torrent
  }

  ghost predicate OneLive(locations: map<string, Location>) {
    forall r, q | r in locations && q in locations && locations[r].torrent.Some? && r != q ::
      !(LiveCopy(locations[r], locations[r].sha1, locations[r].torrent) &&
        LiveCopy(locations[q], locations[r].sha1, locations[r].torrent))
  }

  /** Rows are only taken away or marked deleted. */
  ghost predicate Shrinks(before: map<string, Location>, after: map<string, Location>) {
    forall r | r in after :: r in before && (after[r] == before[r] || after[r] == before[r].(live := false))
  }

  lemma ShrinkKeepsOneLive(before: map<string, Location>, after: map<string, Location>)
    requires OneLive(before) && Shrinks(before, after)
    ensures OneLive(after)
  {
  }

  lemma RetiredLeavesNone(locations: map<string, Location>, sha1: string, torrent: string, keep: string)
    ensures Shrinks(locations, Retired(locations, sha1, torrent, keep))
    ensures forall q | q in Retired(locations, sha1, torrent, keep) && q != keep ::
              !LiveCopy(Retired(locations, sha1, torrent, keep)[q], sha1, Some(torrent))
  {
  }

  /** A row may become the live copy for its torrent when no other row is. */
  lemma PutKeepsOneLive(locations: map<string, Location>, r: string, l: Location)
    requires OneLive(locations)
    ensures OneLive(locations[r := l]) <==>
            !(l.managed && l.live && l.torrent.Some? &&
              exists q | q in locations :: q != r && LiveCopy(locations[q], l.sha1, l.torrent))
  {
    var after := locations[r := l];
    if q :| q in locations && q != r && LiveCopy(locations[q], l.sha1, l.torrent) {
      assert l.managed && l.live && l.torrent.Some? ==>
               LiveCopy(after[r], after[r].sha1, after[r].torrent)
               && LiveCopy(after[q], after[r].sha1, after[r].torrent);
    }
  }

  lemma ScannedKeepsOneLive(locations: map<string, Location>, sha1: string, torrent: string, artifact: nat, file: File)
    requires OneLive(locations)
    ensures OneLive(LocationScanned(locations, sha1, torrent, artifact, file))
  {
    var retired := Retired(locations, sha1, torrent, file.remoteId);
    RetiredLeavesNone(locations, sha1, torrent, file.remoteId);
    ShrinkKeepsOneLive(locations, retired);
    PutKeepsOneLive(retired, file.remoteId, ScannedLocation(retired, sha1, torrent, artifact, file));
  }

  lemma {:induction false} FilesKeepOneLive(t: Tables, torrent: string, artifact: nat, files: seq<File>)
    requires OneLive(t.locations) && FilesSaved(t, torrent, artifact, files).Ok?
    ensures OneLive(FilesSaved(t, torrent, artifact, files).value.0.locations)
  {
    hide OneLive, LocationScanned;
    if files != [] {
      var before := files[..|files| - 1];
      FilesKeepOneLive(t, torrent, artifact, before);
      var file := files[|files| - 1];
      ScannedKeepsOneLive(FilesSaved(t, torrent, artifact, before).value.0.locations, Lower(file.sha1), torrent,
                          artifact, file);
    }
  }

  /** A call without a source gives a row that has a torrent a content that another live copy already has. */
  ghost predicate Clashes(t: Tables, call: Call) {
    && call.SaveLocation? && call.source == "" && call.sha1 in t.contents
    && call.remoteId in t.locations
    && var row := t.locations[call.remoteId];
    && row.torrent.Some? && (row.managed || call.managed)
    && exists q | q in t.locations :: q != call.remoteId && LiveCopy(t.locations[q], call.sha1, row.torrent)
  }

  /** Saving a row as it was found, still live and of the same content, never clashes. */
  lemma SavedAsFoundNeverClashes(t: Tables, call: Call)
    requires OneLive(t.locations) && call.SaveLocation? && call.remoteId in t.locations
    requires var row := t.locations[call.remoteId];
             row.live && row.sha1 == call.sha1 && row.managed == call.managed
    ensures !Clashes(t, call)
  {
    var row := t.locations[call.remoteId];
    assert row.managed ==> LiveCopy(row, row.sha1, row.torrent);
  }

  /** Being live and of the content is not enough: an external row saved as managed meets the managed copy. */
  lemma ExternalSavedAsManagedClashes(t: Tables, r: string, q: string, place: Place)
    requires r in t.locations && q in t.locations && r != q
    requires var row := t.locations[r];
             && row.live && !row.managed && row.torrent.Some? && row.sha1 in t.contents
             && LiveCopy(t.locations[q], row.sha1, row.torrent)
    ensures var call := SaveLocation(t.locations[r].sha1, r, place, true, "");
            Clashes(t, call) && !OneLive(Apply(t, call).locations)
  {
    var row := t.locations[r];
    var call := SaveLocation(row.sha1, r, place, true, "");
    var after := Apply(t, call).locations;
    assert LiveCopy(after[r], after[r].sha1, after[r].torrent) && LiveCopy(after[q], after[r].sha1, after[r].torrent);
  }

  lemma SavedKeepsOneLive(t: Tables, call: Call)
    requires OneLive(t.locations) && call.SaveLocation?
    ensures OneLive(Apply(t, call).locations) <==> !Clashes(t, call)
  {
    hide OneLive, Retired, Lower, OfTorrent;
    var hash := Lower(call.source);
    if call.source == "" && call.sha1 in t.contents {
      PutKeepsOneLive(t.locations, call.remoteId,
                      SavedLocation(t.locations, call.remoteId, call.sha1, None, None, call.place, call.managed));
    } else if call.source != "" && hash in t.torrents && call.sha1 in t.contents {
      var held := OfTorrent(t.artifacts, hash);
      var artifact := if held == {} then None else Some(Maximum(held));
      var retired := Retired(t.locations, call.sha1, hash, call.remoteId);
      RetiredLeavesNone(t.locations, call.sha1, hash, call.remoteId);
      ShrinkKeepsOneLive(t.locations, retired);
      PutKeepsOneLive(retired, call.remoteId,
                      SavedLocation(retired, call.remoteId, call.sha1, Some(hash), artifact, call.place, call.managed));
    }
  }

  lemma OthersShrink(t: Tables, call: Call)
    requires !call.SaveScan? && !call.SaveLocation?
    ensures Shrinks(t.locations, Apply(t, call).locations)
  {
    hide Lower, IsHash, Occupied, Seeded, Disowned, ArtifactFor, FilledArtifact, OfTorrent, HasLive, Shrinks;
    match call
    case MarkLocationDeleted(r) =>
      if r in t.locations {
        DeletionShrinks(t.locations, r);
      } else {
        AlikeShrinks(t.locations);
      }
    case MarkArtifactDeleted(id) =>
      CascadeShrinks(t.locations, t.locations, {id});
    case MarkSourceLocationsDeleted(infoHash) =>
      SourceShrinks(t.locations, OfTorrent(t.artifacts, Lower(infoHash)));
    case _ => AlikeShrinks(t.locations);
  }

  lemma AlikeShrinks(locations: map<string, Location>)
    ensures Shrinks(locations, locations)
  {
  }

  lemma CascadeShrinks(before: map<string, Location>, middle: map<string, Location>, gone: set<nat>)
    ensures Shrinks(before, middle) ==> Shrinks(before, Cascaded(middle, gone))
    ensures Shrinks(before, before)
  {
  }

  lemma DeletionShrinks(locations: map<string, Location>, r: string)
    requires r in locations
    ensures var middle := locations[r := locations[r].(live := false)];
            Shrinks(locations, middle) && forall gone :: Shrinks(locations, Cascaded(middle, gone))
  {
  }

  lemma SourceShrinks(locations: map<string, Location>, gone: set<nat>)
    ensures Shrinks(locations, Cascaded(SourceLocationsRetired(locations, gone), gone))
  {
  }

  /** Over one call. */
  lemma OneLiveStep(t: Tables, call: Call)
    requires OneLive(t.locations)
    ensures OneLive(Apply(t, call).locations) <==> !Clashes(t, call)
  {
    if call.SaveLocation? {
      SavedKeepsOneLive(t, call);
    } else if call.SaveScan? {
      ScanKeepsOneLive(t, call.scan, call.task);
    } else {
      hide OneLive;
      OthersShrink(t, call);
      ShrinkKeepsOneLive(t.locations, Apply(t, call).locations);
    }
  }

  lemma ScanKeepsOneLive(t: Tables, scan: Scan, task: ProviderTask)
    requires OneLive(t.locations)
    ensures OneLive(Apply(t, SaveScan(scan, task)).locations)
  {
    hide OneLive, FilesSaved, Leftover, ArtifactFor, FilledArtifact, RootFor, Absent, ScanTasks;
    if ScanSaved(t, scan, task).Ok? {
      var artifact := ArtifactFor(t.artifacts, ScanGid(scan, task));
      var start := ScanOpened(t, scan, task);
      FilesKeepOneLive(start, scan.infoHash, artifact, scan.files);
      var done := FilesSaved(start, scan.infoHash, artifact, scan.files).value.0;
      ShrinkKeepsOneLive(done.locations, Cascaded(done.locations, Leftover(done, scan.infoHash, artifact)));
    }
  }

  ghost predicate OneLiveAt(calls: seq<Call>, i: nat)
    requires i <= |calls|
  {
    OneLive(Run(EMPTY, calls[..i]).locations)
  }

  ghost predicate ClashAt(calls: seq<Call>, i: nat)
    requires i < |calls|
  {
    Clashes(Run(EMPTY, calls[..i]), calls[i])
  }

  /**
   Every state of a run has at most one live managed copy per content and torrent exactly when no
   call without a source met a live copy in its way. SaveScan and SaveLocation with a source never do.
   */
  lemma {:induction false} OneLiveAlways(calls: seq<Call>, n: nat)
    requires n <= |calls|
    ensures (forall i | 0 <= i <= n :: OneLiveAt(calls, i)) <==> (forall i | 0 <= i < n :: !ClashAt(calls, i))
  {
    hide OneLiveAt, ClashAt;
    if n == 0 {
      OneLiveAtStart(calls);
    } else {
      OneLiveAlways(calls, n - 1);
      if OneLiveAt(calls, n - 1) {
        OneLiveNext(calls, n - 1);
      }
    }
  }

  lemma OneLiveAtStart(calls: seq<Call>)
    ensures OneLiveAt(calls, 0)
  {
    assert calls[..0] == [];
  }

  lemma OneLiveNext(calls: seq<Call>, i: nat)
    requires i < |calls| && OneLiveAt(calls, i)
    ensures OneLiveAt(calls, i + 1) <==> !ClashAt(calls, i)
  {
    RunSnoc(EMPTY, calls, i);
    OneLiveStep(Run(EMPTY, calls[..i]), calls[i]);
    hide OneLive, Clashes, Apply, Run;
  }

  /** Scanning one file into a catalogue with no artifact but the task's own. */
  lemma OneFileScanned(t: Tables, scan: Scan, file: File)
    requires IsHash(scan.infoHash) && IsHash(file.sha1) && scan.totalBytes >= 0 && file.sizeBytes >= 0
    requires scan.files == [file]
    requires file.sha1 in t.contents ==> t.contents[file.sha1].sizeBytes == file.sizeBytes
    requires t.artifacts.Keys <= {ArtifactFor(t.artifacts, DirectGid(scan.infoHash))}
    ensures var t' := Apply(t, SaveScan(scan, NO_TASK));
            var artifact := ArtifactFor(t.artifacts, DirectGid(scan.infoHash));
            && t'.locations == LocationScanned(t.locations, file.sha1, scan.infoHash, artifact, file)
            && t'.contents == ContentSaved(t.contents, file.sha1, file)
            && t'.artifacts.Keys == {artifact} && CreatedBy(t'.artifacts, DirectGid(scan.infoHash)) <= {artifact}
            && (t.artifacts == map[] ==> CreatedBy(t'.artifacts, DirectGid(scan.infoHash)) == {artifact})
  {
    var gid := DirectGid(scan.infoHash);
    hide LocationScanned, ContentSaved, ArtifactFor, DirectGid, RootFor, Absent, ScanTasks;
    var artifact := ArtifactFor(t.artifacts, gid);
    var start := ScanOpened(t, scan, NO_TASK);
    assert FilesSaved(start, scan.infoHash, artifact, []) == Ok((start, []));
    assert scan.files[..0] == [];
    var done := FilesSaved(start, scan.infoHash, artifact, scan.files).value.0;
    assert done.artifacts.Keys == {artifact};
    assert Leftover(done, scan.infoHash, artifact) == {};
    assert Cascaded(done.locations, {}) == done.locations;
  }

  /** The row is a live managed copy of the content, one byte long. */
  ghost predicate CopyAt(t: Tables, remoteId: string, sha1: string, torrent: string) {
    && remoteId in t.locations && LiveCopy(t.locations[remoteId], sha1, Some(torrent))
    && sha1 in t.contents && t.contents[sha1].sizeBytes == 1
  }

  lemma FirstScan(scan: Scan, file: File)
    requires IsHash(scan.infoHash) && IsHash(file.sha1) && scan.totalBytes == 0 && file.sizeBytes == 1
    requires scan.files == [file]
    ensures var t := Apply(EMPTY, SaveScan(scan, NO_TASK));
            && CopyAt(t, file.remoteId, file.sha1, scan.infoHash) && t.locations.Keys == {file.remoteId}
            && t.artifacts.Keys <= {ArtifactFor(t.artifacts, DirectGid(scan.infoHash))}
  {
    OneFileScanned(EMPTY, scan, file);
    hide Apply, DirectGid, IsHash, NextId, ScanSaved;
  }

  /** The former row is retired, and stays a row of the torrent. */
  lemma SecondScan(t: Tables, scan: Scan, file: File, former: string)
    requires CopyAt(t, former, file.sha1, scan.infoHash) && t.locations.Keys == {former} && former != file.remoteId
    requires t.artifacts.Keys <= {ArtifactFor(t.artifacts, DirectGid(scan.infoHash))}
    requires IsHash(scan.infoHash) && IsHash(file.sha1) && scan.totalBytes == 0 && file.sizeBytes == 1
    requires scan.files == [file]
    ensures var t' := Apply(t, SaveScan(scan, NO_TASK));
            && CopyAt(t', file.remoteId, file.sha1, scan.infoHash)
            && former in t'.locations && t'.locations[former].torrent == Some(scan.infoHash)
  {
    hide Apply, DirectGid, IsHash, ArtifactFor, ScanSaved;
    OneFileScanned(t, scan, file);
  }

  lemma CopiesClash(t: Tables, hash: string, sha1: string, place: Place)
    requires CopyAt(t, "new", sha1, hash) && "old" in t.locations && t.locations["old"].torrent == Some(hash)
    ensures Clashes(t, SaveLocation(sha1, "old", place, true, ""))
  {
  }

  const NO_TASK := ProviderTask("", "", "", "", "", "")

  /**
   The clash happens: a file that moved is scanned under a new id, and its old id is then saved
   again without a source.
   */
  lemma OldIdComesBack(hash: string, sha1: string, place: Place)
    requires IsHash(hash) && IsHash(sha1)
    ensures var first := Scan(hash, "", "", "", 0, "", [File("a", sha1, "a", 1, "old", place)]);
            var second := Scan(hash, "", "", "", 0, "", [File("a", sha1, "a", 1, "new", place)]);
            var calls := [SaveScan(first, NO_TASK), SaveScan(second, NO_TASK),
                          SaveLocation(sha1, "old", place, true, "")];
            Clashes(Run(EMPTY, calls[..2]), calls[2])
  {
    var first := Scan(hash, "", "", "", 0, "", [File("a", sha1, "a", 1, "old", place)]);
    var second := Scan(hash, "", "", "", 0, "", [File("a", sha1, "a", 1, "new", place)]);
    var calls := [SaveScan(first, NO_TASK), SaveScan(second, NO_TASK), SaveLocation(sha1, "old", place, true, "")];
    hide *;
    var t1 := Apply(EMPTY, calls[0]);
    FirstScan(first, first.files[0]);
    SecondScan(t1, second, second.files[0], "old");
    CopiesClash(Apply(t1, calls[1]), hash, sha1, place);
    TwoCalls(EMPTY, calls[0], calls[1]);
    assert calls[..2] == [calls[0], calls[1]];
  }

  lemma TwoCalls(t: Tables, a: Call, b: Call)
    ensures Run(t, [a, b]) == Apply(Apply(t, a), b)
  {
    hide Apply;
    assert [a, b][..1] == [a] && [a][..0] == [];
    assert Run(t, [a]) == Apply(t, a);
  }

  // ----- Managed copies stay managed -----

  ghost predicate KeepsManaged(before: map<string, Location>, after: map<string, Location>) {
    forall r | r in before && r in after && before[r].managed :: after[r].managed
  }

  lemma {:induction false} FilesKeepManaged(t: Tables, torrent: string, artifact: nat, files: seq<File>)
    requires FilesSaved(t, torrent, artifact, files).Ok?
    ensures var after := FilesSaved(t, torrent, artifact, files).value.0.locations;
            KeepsManaged(t.locations, after) && t.locations.Keys <= after.Keys
  {
    if files != [] {
      FilesKeepManaged(t, torrent, artifact, files[..|files| - 1]);
    }
  }

  lemma ManagedStep(t: Tables, call: Call)
    ensures KeepsManaged(t.locations, Apply(t, call).locations)
  {
    if call.SaveScan? {
      ManagedScan(t, call.scan, call.task);
    } else if !call.SaveLocation? {
      OthersShrink(t, call);
      hide Apply;
    }
  }

  lemma ManagedScan(t: Tables, scan: Scan, task: ProviderTask)
    ensures KeepsManaged(t.locations, Apply(t, SaveScan(scan, task)).locations)
  {
    hide FilesSaved, Leftover, ArtifactFor, FilledArtifact, RootFor, Absent, ScanTasks;
    if ScanSaved(t, scan, task).Ok? {
      FilesKeepManaged(ScanOpened(t, scan, task), scan.infoHash, ArtifactFor(t.artifacts, ScanGid(scan, task)),
                       scan.files);
    }
  }

  /** As long as its row exists a managed copy never becomes external. */
  lemma {:induction false} NeverExternal(t: Tables, calls: seq<Call>, r: string)
    requires forall i | 0 <= i <= |calls| :: r in Run(t, calls[..i]).locations
    requires r in t.locations && t.locations[r].managed
    ensures r in Run(t, calls).locations && Run(t, calls).locations[r].managed
  {
    assert calls[..|calls|] == calls;
    if calls != [] {
      var before := calls[..|calls| - 1];
      hide Apply;
      forall i | 0 <= i <= |before| ensures r in Run(t, before[..i]).locations {
        assert before[..i] == calls[..i];
      }
      NeverExternal(t, before, r);
      ManagedStep(Run(t, before), calls[|calls| - 1]);
    }
  }

  // ----- STRM roots -----

  ghost predicate RootsDiffer(torrents: map<string, Torrent>) {
    forall h, k | h in torrents && k in torrents && h != k && torrents[h].strmRoot != "" ::
      torrents[h].strmRoot != torrents[k].strmRoot
  }

  ghost predicate RootsKept(before: map<string, Torrent>, after: map<string, Torrent>) {
    forall h | h in before :: h in after && (before[h].strmRoot != "" ==> after[h].strmRoot == before[h].strmRoot)
  }

  lemma {:induction false} FilesKeepTorrents(t: Tables, torrent: string, artifact: nat, files: seq<File>)
    requires FilesSaved(t, torrent, artifact, files).Ok?
    ensures var t' := FilesSaved(t, torrent, artifact, files).value.0;
            t'.torrents == t.torrents && t'.tasks == t.tasks && t'.artifacts == t.artifacts
  {
    if files != [] {
      FilesKeepTorrents(t, torrent, artifact, files[..|files| - 1]);
    }
  }

  lemma RootIsFree(torrents: map<string, Torrent>, scan: Scan, task: ProviderTask)
    requires IsHash(scan.infoHash) && RootsDiffer(torrents)
    ensures var row := ScannedTorrent(torrents, scan).(strmRoot := RootFor(torrents, scan, task));
            RootsDiffer(torrents[scan.infoHash := row]) && RootsKept(torrents, torrents[scan.infoHash := row])
  {
    hide Candidate, PreferredRoot, IsHash;
    var h := scan.infoHash;
    var root := RootFor(torrents, scan, task);
    if !(h in torrents && torrents[h].strmRoot != "") {
      forall k | k in torrents && k != h ensures torrents[k].strmRoot != root {
        var after := torrents[h := ScannedTorrent(torrents, scan)];
        assert after[k].strmRoot in Roots(after);
      }
    }
  }

  lemma RootsStep(t: Tables, call: Call)
    requires RootsDiffer(t.torrents)
    ensures RootsDiffer(Apply(t, call).torrents) && RootsKept(t.torrents, Apply(t, call).torrents)
  {
    hide IsHash, Occupied, ArtifactFor, FilledArtifact, ScanSaved, Seeded, RootsDiffer, RootsKept;
    match call
    case SaveScan(scan, task) => RootsScan(t, scan, task);
    case SaveTask(magnetURI, infoHash, name, totalBytes, _) =>
      RowKeepsRoots(t.torrents, Lower(infoHash),
                    NamedTorrent(t.torrents, Lower(infoHash), magnetURI, name, totalBytes));
      SameRoots(t.torrents);
    case CreateJob(job) =>
      var h := Lower(job.infoHash);
      RowKeepsRoots(t.torrents, h, if h in t.torrents then t.torrents[h].(magnetURI := job.magnetURI)
                                   else Torrent(job.magnetURI, "", 0, 0, ""));
      SameRoots(t.torrents);
    case _ => SameRoots(t.torrents);
  }

  lemma SameRoots(torrents: map<string, Torrent>)
    ensures RootsKept(torrents, torrents)
  {
  }

  lemma RowKeepsRoots(torrents: map<string, Torrent>, h: string, row: Torrent)
    requires RootsDiffer(torrents)
    requires row.strmRoot == if h in torrents then torrents[h].strmRoot else ""
    ensures RootsDiffer(torrents[h := row]) && RootsKept(torrents, torrents[h := row])
  {
  }

  lemma RootsScan(t: Tables, scan: Scan, task: ProviderTask)
    requires RootsDiffer(t.torrents)
    ensures var after := Apply(t, SaveScan(scan, task)).torrents; RootsDiffer(after) && RootsKept(t.torrents, after)
  {
    hide IsHash, ArtifactFor, FilledArtifact, FilesSaved, RootFor, Leftover;
    if ScanSaved(t, scan, task).Ok? {
      FilesKeepTorrents(ScanOpened(t, scan, task), scan.infoHash, ArtifactFor(t.artifacts, ScanGid(scan, task)),
                        scan.files);
      RootIsFree(t.torrents, scan, task);
    }
  }

  /** Over every run non-empty roots differ, and a torrent keeps the root it was given. */
  lemma {:induction false} RootsAlways(calls: seq<Call>, n: nat)
    requires n <= |calls|
    ensures RootsDiffer(Run(EMPTY, calls).torrents)
    ensures RootsKept(Run(EMPTY, calls[..n]).torrents, Run(EMPTY, calls).torrents)
  {
    assert calls[..|calls|] == calls;
    if calls != [] {
      hide Apply;
      var before := calls[..|calls| - 1];
      var m := if n < |calls| then n else n - 1;
      assert before[..m] == calls[..m];
      RootsAlways(before, m);
      RootsStep(Run(EMPTY, before), calls[|calls| - 1]);
    }
  }

  // ----- Jobs -----

  predicate Removes(call: Call, gid: string) {
    (call.DeleteJob? || call.DeleteJobAny?) && call.gid == gid
  }

  /** A scan outside any job marks the row that it keeps for such scans as succeeded. */
  predicate Overwrites(call: Call, gid: string) {
    call.SaveScan? && call.task.jobGid == "" && gid == DirectGid(call.scan.infoHash)
  }

  predicate IsCanceled(t: Tables, gid: string) {
    gid in t.tasks && t.tasks[gid].state == Canceled
  }

  lemma ScanKeepsTasks(t: Tables, scan: Scan, task: ProviderTask)
    ensures var after := Apply(t, SaveScan(scan, task)).tasks;
            after == if ScanSaved(t, scan, task).Ok? then ScanTasks(t.tasks, scan, task) else t.tasks
  {
    hide IsHash, ArtifactFor, FilledArtifact, FilesSaved, RootFor, Leftover, ScanTasks;
    if ScanSaved(t, scan, task).Ok? {
      FilesKeepTorrents(ScanOpened(t, scan, task), scan.infoHash, ArtifactFor(t.artifacts, ScanGid(scan, task)),
                        scan.files);
    }
  }

  predicate OnPlaces(call: Call) {
    || call.SaveLocation? || call.MarkLocationDeleted? || call.MarkArtifactDeleted?
    || call.MarkSourceLocationsDeleted? || call.MarkStrmSeeded?
  }

  lemma SaveTaskKeepsTasks(t: Tables, call: Call)
    requires call.SaveTask?
    ensures forall g | g in t.tasks :: g in Apply(t, call).tasks && Apply(t, call).tasks[g] == t.tasks[g]
  {
    hide IsHash, Lower, ArtifactFor, FilledArtifact, DirectGid, NamedTorrent;
  }

  lemma PlacesKeepRows(t: Tables, call: Call)
    requires OnPlaces(call)
    ensures var t' := Apply(t, call); (t'.torrents, t'.contents, t'.tasks) == (t.torrents, t.contents, t.tasks)
  {
    hide IsHash, Lower, ArtifactFor, FilledArtifact, ScanSaved, Seeded, DirectGid, TaskSaved, JobCreated, JobUpdated,
         Retired, SavedLocation, Cascaded, HasLive, OfTorrent, Occupied;
  }

  lemma CanceledStep(t: Tables, call: Call, gid: string)
    requires IsCanceled(t, gid)
    ensures IsCanceled(Apply(t, call), gid) <==>
            !Removes(call, gid) && !(Overwrites(call, gid) && Outcome(t, call).Ok?)
  {
    hide IsHash, Lower, Occupied, ArtifactFor, FilledArtifact, ScanSaved, DirectGid, TaskSaved,
         LocationSaved, LocationDeleted, ArtifactDeleted, SourceDeleted, StrmsSeeded;
    if call.SaveScan? {
      ScanKeepsTasks(t, call.scan, call.task);
    } else if call.SaveTask? {
      SaveTaskKeepsTasks(t, call);
    } else if OnPlaces(call) {
      PlacesKeepRows(t, call);
    }
  }

  /** Whatever else happens, a canceled job stays canceled until somebody deletes it. */
  lemma {:induction false} CanceledAbsorbs(t: Tables, calls: seq<Call>, gid: string)
    requires IsCanceled(t, gid)
    requires forall i | 0 <= i < |calls| :: !Removes(calls[i], gid) && !Overwrites(calls[i], gid)
    ensures IsCanceled(Run(t, calls), gid)
  {
    if calls != [] {
      hide Apply, Removes, Overwrites, IsCanceled;
      CanceledAbsorbs(t, calls[..|calls| - 1], gid);
      CanceledStep(Run(t, calls[..|calls| - 1]), calls[|calls| - 1], gid);
    }
  }

  predicate IsSucceeded(t: Tables, gid: string) {
    gid in t.tasks && t.tasks[gid].state == Succeeded
  }

  /** An update of the row to another state, which only the index of active tasks can refuse. */
  predicate Reopens(t: Tables, call: Call, gid: string) {
    && call.UpdateJob? && call.job.gid == gid && call.job.state != Succeeded && gid in t.tasks
    && !(IsActive(call.job.state) && Occupied(t.tasks, gid, t.tasks[gid].source, t.tasks[gid].torrent))
  }

  lemma SucceededStep(t: Tables, call: Call, gid: string)
    requires IsSucceeded(t, gid)
    ensures IsSucceeded(Apply(t, call), gid) <==> !Removes(call, gid) && !Reopens(t, call, gid)
  {
    hide IsHash, Lower, Occupied, ArtifactFor, FilledArtifact, ScanSaved, DirectGid, TaskSaved,
         LocationSaved, LocationDeleted, ArtifactDeleted, SourceDeleted, StrmsSeeded;
    if call.SaveScan? {
      ScanKeepsTasks(t, call.scan, call.task);
    } else if call.SaveTask? {
      SaveTaskKeepsTasks(t, call);
    } else if OnPlaces(call) {
      PlacesKeepRows(t, call);
    }
  }

  ghost predicate SucceededAt(t: Tables, calls: seq<Call>, gid: string, i: nat)
    requires i <= |calls|
  {
    IsSucceeded(Run(t, calls[..i]), gid)
  }

  ghost predicate SparedAt(t: Tables, calls: seq<Call>, gid: string, i: nat)
    requires i < |calls|
  {
    !Removes(calls[i], gid) && !Reopens(Run(t, calls[..i]), calls[i], gid)
  }

  /** A succeeded job stays succeeded over a run exactly when no call deletes its row or reopens it. */
  lemma {:induction false} SucceededAlways(t: Tables, calls: seq<Call>, gid: string, n: nat)
    requires IsSucceeded(t, gid) && n <= |calls|
    ensures (forall i | 0 <= i <= n :: SucceededAt(t, calls, gid, i))
       <==> (forall i | 0 <= i < n :: SparedAt(t, calls, gid, i))
  {
    if n == 0 {
      assert calls[..0] == [];
    } else {
      hide SucceededAt, SparedAt;
      SucceededAlways(t, calls, gid, n - 1);
      if SucceededAt(t, calls, gid, n - 1) {
        SucceededNext(t, calls, gid, n - 1);
      }
    }
  }

  lemma SucceededNext(t: Tables, calls: seq<Call>, gid: string, i: nat)
    requires i < |calls| && SucceededAt(t, calls, gid, i)
    ensures SucceededAt(t, calls, gid, i + 1) <==> SparedAt(t, calls, gid, i)
  {
    RunSnoc(t, calls, i);
    SucceededStep(Run(t, calls[..i]), calls[i], gid);
    hide IsSucceeded, Reopens, Removes, Apply, Run;
  }

  lemma RunSnoc(t: Tables, calls: seq<Call>, i: nat)
    requires i < |calls|
    ensures Run(t, calls[..i + 1]) == Apply(Run(t, calls[..i]), calls[i])
  {
    hide Apply;
    assert calls[..i + 1][..i] == calls[..i];
  }

  predicate IsQueued(t: Tables, gid: string) {
    gid in t.tasks && t.tasks[gid].state == Queued
  }

  /** The call takes a queued row away or to another state. */
  ghost predicate Dequeues(t: Tables, call: Call, gid: string) {
    || ((call.DeleteJobAny? || call.CancelJob?) && call.gid == gid)
    || (Overwrites(call, gid) && Outcome(t, call).Ok?)
    || (call.UpdateJob? && call.job.gid == gid && call.job.state != Queued && Outcome(t, call).Ok?)
  }

  lemma QueuedStep(t: Tables, call: Call, gid: string)
    requires IsQueued(t, gid)
    ensures IsQueued(Apply(t, call), gid) <==> !Dequeues(t, call, gid)
  {
    hide IsHash, Lower, Occupied, ArtifactFor, FilledArtifact, ScanSaved, DirectGid, TaskSaved,
         LocationSaved, LocationDeleted, ArtifactDeleted, SourceDeleted, StrmsSeeded;
    if call.SaveScan? {
      ScanKeepsTasks(t, call.scan, call.task);
    } else if call.SaveTask? {
      SaveTaskKeepsTasks(t, call);
    } else if OnPlaces(call) {
      PlacesKeepRows(t, call);
    }
  }

  ghost predicate QueuedAt(t: Tables, calls: seq<Call>, gid: string, i: nat)
    requires i <= |calls|
  {
    IsQueued(Run(t, calls[..i]), gid)
  }

  ghost predicate DequeuedAt(t: Tables, calls: seq<Call>, gid: string, i: nat)
    requires i < |calls|
  {
    Dequeues(Run(t, calls[..i]), calls[i], gid)
  }

  /** A queued row stays queued over a run exactly when no call takes it away or to another state. */
  lemma {:induction false} QueuedAlways(t: Tables, calls: seq<Call>, gid: string, n: nat)
    requires IsQueued(t, gid) && n <= |calls|
    ensures (forall i | 0 <= i <= n :: QueuedAt(t, calls, gid, i)) <==>
            (forall i | 0 <= i < n :: !DequeuedAt(t, calls, gid, i))
  {
    if n == 0 {
      assert calls[..0] == [];
    } else {
      hide QueuedAt, DequeuedAt;
      QueuedAlways(t, calls, gid, n - 1);
      if QueuedAt(t, calls, gid, n - 1) {
        QueuedNext(t, calls, gid, n - 1);
      }
    }
  }

  lemma QueuedNext(t: Tables, calls: seq<Call>, gid: string, i: nat)
    requires i < |calls| && QueuedAt(t, calls, gid, i)
    ensures QueuedAt(t, calls, gid, i + 1) <==> !DequeuedAt(t, calls, gid, i)
  {
    RunSnoc(t, calls, i);
    QueuedStep(Run(t, calls[..i]), calls[i], gid);
    hide IsQueued, Dequeues, Apply, Run;
  }

  // ----- STRM seeding -----

  predicate IsSeeded(t: Tables, key: (string, string)) {
    key in t.files && t.files[key].seeded
  }

  /** A successful MarkSTRMSeeded names the path. */
  predicate Marks(t: Tables, call: Call, key: (string, string)) {
    && call.MarkStrmSeeded? && StrmsSeeded(t, call.infoHash, call.paths).Ok? && Lower(call.infoHash) == key.0
    && key.1 in call.paths
  }

  /** The list has the path with this content. */
  predicate Lists(files: seq<File>, path: string, sha1: string) {
    exists i | 0 <= i < |files| :: files[i].path == path && Lower(files[i].sha1) == sha1
  }

  predicate ListsOther(files: seq<File>, path: string, sha1: string) {
    exists i | 0 <= i < |files| :: files[i].path == path && Lower(files[i].sha1) != sha1
  }

  /** A successful scan of the torrent lists the path with another content than the tables have. */
  ghost predicate Replaces(t: Tables, call: Call, key: (string, string)) {
    && call.SaveScan? && ScanSaved(t, call.scan, call.task).Ok? && call.scan.infoHash == key.0
    && key in t.files && ListsOther(call.scan.files, key.1, t.files[key].sha1)
  }

  lemma ListsOtherSnoc(files: seq<File>, path: string, sha1: string)
    requires files != []
    ensures var last := files[|files| - 1];
            ListsOther(files, path, sha1) <==>
            ListsOther(files[..|files| - 1], path, sha1) || (last.path == path && Lower(last.sha1) != sha1)
  {
    var before := files[..|files| - 1];
    if ListsOther(before, path, sha1) {
      var i :| 0 <= i < |before| && before[i].path == path && Lower(before[i].sha1) != sha1;
      assert files[i] == before[i];
    }
    if i :| 0 <= i < |files| && files[i].path == path && Lower(files[i].sha1) != sha1 && i < |files| - 1 {
      assert before[i] == files[i];
    }
  }

  lemma {:induction false} FilesSeed(t: Tables, torrent: string, artifact: nat, files: seq<File>, key: (string, string))
    requires FilesSaved(t, torrent, artifact, files).Ok?
    ensures var t' := FilesSaved(t, torrent, artifact, files).value.0;
            && (key.0 != torrent ==>
                (key in t'.files <==> key in t.files) && (key in t.files ==> t'.files[key] == t.files[key]))
            && (key.0 == torrent ==>
                  && (IsSeeded(t', key) <==> IsSeeded(t, key) && !ListsOther(files, key.1, t.files[key].sha1))
                  && (IsSeeded(t', key) ==> t'.files[key].sha1 == t.files[key].sha1))
    decreases |files|
  {
    if files != [] {
      hide ListsOther, ContentSaved, LocationScanned;
      FilesSeed(t, torrent, artifact, files[..|files| - 1], key);
      if key in t.files {
        ListsOtherSnoc(files, key.1, t.files[key].sha1);
      }
    } else if key in t.files {
      assert !ListsOther(files, key.1, t.files[key].sha1);
    }
  }

  lemma {:induction false} MarksSeed(files: map<(string, string), TorrentFile>, torrent: string, paths: seq<string>,
                                     key: (string, string))
    requires Seeded(files, torrent, paths).Ok?
    ensures var after := Seeded(files, torrent, paths).value;
            && after.Keys == files.Keys
            && (key.0 == torrent && key.1 in paths ==> key in files)
            && (key in files ==>
                  after[key] == files[key].(seeded := files[key].seeded || (key.0 == torrent && key.1 in paths)))
  {
    if paths != [] {
      MarksSeed(files, torrent, paths[..|paths| - 1], key);
      assert paths == paths[..|paths| - 1] + [paths[|paths| - 1]];
    }
  }

  lemma SeedStep(t: Tables, call: Call, key: (string, string))
    ensures IsSeeded(Apply(t, call), key) <==> Marks(t, call, key) || (IsSeeded(t, key) && !Replaces(t, call, key))
  {
    if call.SaveScan? {
      hide Apply, Replaces, IsSeeded;
      SeedScan(t, call.scan, call.task, key);
    } else if call.MarkStrmSeeded? {
      SeedMarks(t, call, key);
    } else {
      OthersKeepFiles(t, call);
      hide Apply;
    }
  }

  lemma SeedMarks(t: Tables, call: Call, key: (string, string))
    requires call.MarkStrmSeeded?
    ensures IsSeeded(Apply(t, call), key) <==> Marks(t, call, key) || IsSeeded(t, key)
  {
    hide Lower, Seeded;
    if StrmsSeeded(t, call.infoHash, call.paths).Ok? {
      MarksSeed(t.files, Lower(call.infoHash), call.paths, key);
    }
  }

  lemma OthersKeepFiles(t: Tables, call: Call)
    requires !call.SaveScan? && !call.MarkStrmSeeded?
    ensures Apply(t, call).files == t.files
  {
    if OnPlaces(call) {
      PlacesKeepFiles(t, call);
    } else {
      hide IsHash, Lower, Occupied, ArtifactFor, FilledArtifact, NamedTorrent, SavedTasks, Disowned;
    }
  }

  lemma PlacesKeepFiles(t: Tables, call: Call)
    requires OnPlaces(call) && !call.MarkStrmSeeded?
    ensures Apply(t, call).files == t.files
  {
    hide Lower, Retired, SavedLocation, Cascaded, HasLive, OfTorrent, SourceLocationsRetired, IsHash;
  }

  lemma SeedScan(t: Tables, scan: Scan, task: ProviderTask, key: (string, string))
    ensures IsSeeded(Apply(t, SaveScan(scan, task)), key) <==>
            IsSeeded(t, key) && !Replaces(t, SaveScan(scan, task), key)
  {
    hide IsHash, ArtifactFor, FilledArtifact, FilesSaved, RootFor, Leftover, ListsOther, ScanTasks;
    if ScanSaved(t, scan, task).Ok? {
      FilesSeed(ScanOpened(t, scan, task), scan.infoHash, ArtifactFor(t.artifacts, ScanGid(scan, task)), scan.files,
                key);
    }
  }

  ghost predicate MarkedAt(calls: seq<Call>, i: nat, key: (string, string))
    requires i < |calls|
  {
    Marks(Run(EMPTY, calls[..i]), calls[i], key)
  }

  ghost predicate ReplacedAt(calls: seq<Call>, i: nat, key: (string, string))
    requires i < |calls|
  {
    Replaces(Run(EMPTY, calls[..i]), calls[i], key)
  }

  /** Some call marked the path and no later one replaced its content. */
  ghost predicate Remembered(calls: seq<Call>, key: (string, string)) {
    exists i | 0 <= i < |calls| :: MarkedAt(calls, i, key) && UndisturbedAfter(calls, i, key)
  }

  ghost predicate UndisturbedAfter(calls: seq<Call>, i: nat, key: (string, string)) {
    forall j | i < j < |calls| :: !ReplacedAt(calls, j, key)
  }

  lemma AtPrefix(calls: seq<Call>, n: nat, i: nat, key: (string, string))
    requires i < n <= |calls|
    ensures MarkedAt(calls[..n], i, key) == MarkedAt(calls, i, key)
    ensures ReplacedAt(calls[..n], i, key) == ReplacedAt(calls, i, key)
  {
    assert calls[..n][..i] == calls[..i];
  }

  lemma RememberedSnoc(calls: seq<Call>, before: seq<Call>, key: (string, string))
    requires calls != [] && before == calls[..|calls| - 1]
    ensures Remembered(calls, key) <==>
            MarkedAt(calls, |before|, key) || (Remembered(before, key) && !ReplacedAt(calls, |before|, key))
  {
    hide MarkedAt, ReplacedAt;
    forall i | 0 <= i < |before|
      ensures MarkedAt(before, i, key) == MarkedAt(calls, i, key)
      ensures ReplacedAt(before, i, key) == ReplacedAt(calls, i, key)
    {
      AtPrefix(calls, |before|, i, key);
    }
    assert UndisturbedAfter(calls, |before|, key);
    forall i | 0 <= i < |before|
      ensures UndisturbedAfter(calls, i, key) <==> UndisturbedAfter(before, i, key) && !ReplacedAt(calls, |before|, key)
    {
    }
    hide UndisturbedAfter;
  }

  /**
   The seeded flag is history: a path is seeded exactly when some call marked it and no scan since
   has listed it with another content, however often it was removed and came back in between.
   */
  lemma {:induction false} SeedingRemembers(calls: seq<Call>, key: (string, string))
    ensures IsSeeded(Run(EMPTY, calls), key) <==> Remembered(calls, key)
  {
    if calls != [] {
      var last := |calls| - 1;
      SeedingRemembers(calls[..last], key);
      SeedStep(Run(EMPTY, calls[..last]), calls[last], key);
      RememberedSnoc(calls, calls[..last], key);
      hide Apply, Marks, Replaces, IsSeeded, Remembered;
    }
  }
}
