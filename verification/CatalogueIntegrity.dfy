/** The constraints of the schema hold in every state, so no foreign key check can fail. */
module CatalogueIntegrity {
  import opened Texts
  import opened Wrappers
  import opened Catalogue
  import opened CatalogueTheorems

  ghost predicate TasksSound(tasks: map<string, Task>, torrents: set<string>) {
    forall g | g in tasks :: tasks[g].torrent in torrents
  }

  /** The partial unique index of active tasks. */
  ghost predicate ActiveUnique(tasks: map<string, Task>) {
    forall g | g in tasks && IsActive(tasks[g].state) :: !Occupied(tasks, g, tasks[g].source, tasks[g].torrent)
  }

  ghost predicate ArtifactsSound(artifacts: map<nat, Artifact>, torrents: set<string>, tasks: set<string>) {
    && 0 !in artifacts
    && (forall a | a in artifacts ::
          artifacts[a].torrent in torrents && (artifacts[a].createdBy.Some? ==> artifacts[a].createdBy.value in tasks))
    && (forall a, b | a in artifacts && b in artifacts && artifacts[a].createdBy.Some? && a != b ::
          artifacts[b].createdBy != artifacts[a].createdBy)
  }

  ghost predicate FilesSound(files: map<(string, string), TorrentFile>, torrents: set<string>, contents: set<string>) {
    forall k | k in files :: k.0 in torrents && files[k].sha1 in contents
  }

  ghost predicate LocationsSound(locations: map<string, Location>, contents: set<string>, torrents: set<string>,
                                 artifacts: set<nat>) {
    forall r | r in locations ::
      && locations[r].sha1 in contents
      && (locations[r].torrent.Some? ==> locations[r].torrent.value in torrents)
      && (locations[r].artifact.Some? ==> locations[r].artifact.value in artifacts)
  }

  ghost predicate Sound(t: Tables) {
    && TasksSound(t.tasks, t.torrents.Keys)
    && ActiveUnique(t.tasks)
    && ArtifactsSound(t.artifacts, t.torrents.Keys, t.tasks.Keys)
    && FilesSound(t.files, t.torrents.Keys, t.contents.Keys)
    && LocationsSound(t.locations, t.contents.Keys, t.torrents.Keys, t.artifacts.Keys)
    && (forall h | h in t.torrents :: IsHash(h))
    && (forall h | h in t.contents :: IsHash(h))
  }

  lemma FilledKeepsSound(artifacts: map<nat, Artifact>, torrents: set<string>, tasks: set<string>, torrent: string,
                         gid: string,
                         task: ProviderTask, resultId: string)
    requires ArtifactsSound(artifacts, torrents, tasks) && torrent in torrents && gid in tasks
    ensures ArtifactsSound(artifacts[ArtifactFor(artifacts, gid) :=
                                       FilledArtifact(artifacts, torrent, gid, task, resultId)],
                           torrents, tasks)
  {
    var id := ArtifactFor(artifacts, gid);
    if id !in artifacts {
      forall a | a in artifacts ensures artifacts[a].createdBy != Some(gid) {
        assert a !in CreatedBy(artifacts, gid);
      }
    }
  }

  lemma DroppedKeepsSound(t: Tables, gone: set<nat>)
    requires Sound(t)
    ensures Sound(ArtifactsDropped(t, gone))
  {
  }

  lemma FileKeepsSound(t: Tables, torrent: string, artifact: nat, file: File)
    requires Sound(t) && torrent in t.torrents && artifact in t.artifacts
    requires FileSaved(t, torrent, artifact, file).Ok?
    ensures Sound(FileSaved(t, torrent, artifact, file).value.0)
  {
    hide TasksSound, ActiveUnique, ArtifactsSound, Lower;
  }

  lemma {:induction false} FilesKeepSound(t: Tables, torrent: string, artifact: nat, files: seq<File>)
    requires Sound(t) && torrent in t.torrents && artifact in t.artifacts
    requires FilesSaved(t, torrent, artifact, files).Ok?
    ensures Sound(FilesSaved(t, torrent, artifact, files).value.0)
  {
    hide Sound, FileSaved;
    if files != [] {
      var before := files[..|files| - 1];
      FilesKeepSound(t, torrent, artifact, before);
      FilesKeepTorrents(t, torrent, artifact, before);
      FileKeepsSound(FilesSaved(t, torrent, artifact, before).value.0, torrent, artifact, files[|files| - 1]);
    }
  }

  lemma OpenedKeepsSound(t: Tables, scan: Scan, task: ProviderTask)
    requires Sound(t) && IsHash(scan.infoHash) && (task.jobGid != "" ==> task.jobGid in t.tasks)
    ensures Sound(ScanOpened(t, scan, task))
    ensures ArtifactFor(t.artifacts, ScanGid(scan, task)) in ScanOpened(t, scan, task).artifacts
  {
    hide ArtifactFor, FilledArtifact, RootFor, IsHash, Lower, ScanTasks, ScanGid;
    var torrents := t.torrents.Keys + {scan.infoHash};
    TasksGrow(t.tasks, scan, task);
    var tasks := ScanTasks(t.tasks, scan, task);
    var gid := ScanGid(scan, task);
    assert ArtifactsSound(t.artifacts, torrents, tasks.Keys);
    FilledKeepsSound(t.artifacts, torrents, tasks.Keys, scan.infoHash, gid, task, scan.resultId);
    assert ScanOpened(t, scan, task).torrents.Keys == torrents;
    ScanTasksSound(t.tasks, t.torrents.Keys, scan, task);
  }

  lemma TasksGrow(tasks: map<string, Task>, scan: Scan, task: ProviderTask)
    ensures tasks.Keys <= ScanTasks(tasks, scan, task).Keys
    ensures task.jobGid == "" || task.jobGid in tasks ==> ScanGid(scan, task) in ScanTasks(tasks, scan, task)
  {
  }

  lemma ScanTasksSound(tasks: map<string, Task>, torrents: set<string>, scan: Scan, task: ProviderTask)
    requires TasksSound(tasks, torrents) && ActiveUnique(tasks)
    ensures TasksSound(ScanTasks(tasks, scan, task), torrents + {scan.infoHash})
            && ActiveUnique(ScanTasks(tasks, scan, task))
  {
  }

  lemma ScanKeepsSound(t: Tables, scan: Scan, task: ProviderTask)
    requires Sound(t)
    ensures Sound(Apply(t, SaveScan(scan, task)))
  {
    hide Sound, ArtifactFor, ScanOpened, FilesSaved, Leftover, IsHash, ArtifactsDropped;
    if ScanSaved(t, scan, task).Ok? {
      var artifact := ArtifactFor(t.artifacts, ScanGid(scan, task));
      var start := ScanOpened(t, scan, task);
      OpenedKeepsSound(t, scan, task);
      OpenedHasTorrent(t, scan, task);
      FilesKeepSound(start, scan.infoHash, artifact, scan.files);
      var done := FilesSaved(start, scan.infoHash, artifact, scan.files).value.0;
      DroppedKeepsSound(done, Leftover(done, scan.infoHash, artifact));
    }
  }

  lemma OpenedHasTorrent(t: Tables, scan: Scan, task: ProviderTask)
    requires IsHash(scan.infoHash)
    ensures scan.infoHash in ScanOpened(t, scan, task).torrents
  {
  }

  /** More torrents and tasks do no harm. */
  lemma GrowthKeepsSound(t: Tables, torrents: set<string>, tasks: set<string>)
    requires Sound(t) && t.torrents.Keys <= torrents && t.tasks.Keys <= tasks
    ensures TasksSound(t.tasks, torrents) && ArtifactsSound(t.artifacts, torrents, tasks)
    ensures FilesSound(t.files, torrents, t.contents.Keys)
    ensures LocationsSound(t.locations, t.contents.Keys, torrents, t.artifacts.Keys)
  {
  }

  lemma MoreArtifactsKeepSound(locations: map<string, Location>, contents: set<string>, torrents: set<string>,
                               artifacts: set<nat>, more: set<nat>)
    requires LocationsSound(locations, contents, torrents, artifacts) && artifacts <= more
    ensures LocationsSound(locations, contents, torrents, more)
  {
  }

  function GidOf(call: Call): string
    requires call.SaveTask?
  {
    if call.task.jobGid != "" then call.task.jobGid else DirectGid(call.infoHash)
  }

  /** What SaveTask writes. */
  lemma SaveTaskRows(t: Tables, call: Call)
    requires call.SaveTask? && Outcome(t, call).Ok?
    ensures var t', hash, gid := Apply(t, call), Lower(call.infoHash), GidOf(call);
            && IsHash(hash) && call.totalBytes >= 0
            && t'.torrents == t.torrents[hash :=
                 NamedTorrent(t.torrents, hash, call.magnetURI, call.name, call.totalBytes)]
            && (t'.contents, t'.files, t'.locations) == (t.contents, t.files, t.locations)
            && t'.tasks == SavedTasks(t.tasks, gid, hash, call.magnetURI, call.task)
            && (t'.artifacts == t.artifacts
                || (gid in t'.tasks
                    && t'.artifacts == t.artifacts[ArtifactFor(t.artifacts, gid) :=
                         FilledArtifact(t.artifacts, t'.tasks[gid].torrent, gid, call.task, call.task.resultId)]))
  {
    hide ArtifactFor, FilledArtifact, NamedTorrent, IsHash, Lower, DirectGid, SavedTasks;
  }

  lemma SaveTaskKeepsSound(t: Tables, call: Call)
    requires Sound(t) && call.SaveTask?
    ensures Sound(Apply(t, call))
  {
    hide ArtifactFor, FilledArtifact, IsHash, Lower, DirectGid, Apply,
         TasksSound, ActiveUnique, ArtifactsSound, FilesSound, LocationsSound;
    var t' := Apply(t, call);
    if Outcome(t, call).Err? {
      FailureKeeps(t, call);
    } else {
      SaveTaskRows(t, call);
      var gid := GidOf(call);
      hide Outcome, NamedTorrent;
      GrowthKeepsSound(t, t'.torrents.Keys, t'.tasks.Keys);
      if t'.tasks != t.tasks {
        DirectKeepsSound(t.tasks, t'.torrents.Keys, gid, Lower(call.infoHash), call.magnetURI);
      }
      if t'.artifacts != t.artifacts {
        TaskTorrent(t'.tasks, t'.torrents.Keys, gid);
        FilledKeepsSound(t.artifacts, t'.torrents.Keys, t'.tasks.Keys, t'.tasks[gid].torrent, gid,
                         call.task, call.task.resultId);
        MoreArtifactsKeepSound(t.locations, t.contents.Keys, t'.torrents.Keys, t.artifacts.Keys, t'.artifacts.Keys);
      }
    }
  }

  lemma FailureKeeps(t: Tables, call: Call)
    requires Outcome(t, call).Err?
    ensures Apply(t, call) == t
  {
    hide Outcome;
  }

  lemma TaskTorrent(tasks: map<string, Task>, torrents: set<string>, gid: string)
    requires TasksSound(tasks, torrents) && gid in tasks
    ensures tasks[gid].torrent in torrents
  {
  }

  lemma DirectKeepsSound(tasks: map<string, Task>, torrents: set<string>, gid: string, hash: string, magnetURI: string)
    requires TasksSound(tasks, torrents) && ActiveUnique(tasks) && hash in torrents
    requires forall g | g in tasks :: tasks[g].torrent != hash
    ensures var tasks' := tasks[gid := Task(hash, "direct", magnetURI, Running, "")];
            TasksSound(tasks', torrents) && ActiveUnique(tasks')
  {
  }

  lemma SavedKeepsLocations(t: Tables, locations: map<string, Location>, remoteId: string, sha1: string,
                            torrent: Option<string>, artifact: Option<nat>, place: Place, managed: bool)
    requires LocationsSound(locations, t.contents.Keys, t.torrents.Keys, t.artifacts.Keys)
    requires sha1 in t.contents && (torrent.Some? ==> torrent.value in t.torrents)
    requires artifact.Some? ==> artifact.value in t.artifacts
    ensures LocationsSound(locations[remoteId :=
                             SavedLocation(locations, remoteId, sha1, torrent, artifact, place, managed)],
                           t.contents.Keys, t.torrents.Keys, t.artifacts.Keys)
  {
  }

  lemma RetiredKeepsLocations(t: Tables, sha1: string, torrent: string, keep: string)
    requires LocationsSound(t.locations, t.contents.Keys, t.torrents.Keys, t.artifacts.Keys)
    ensures LocationsSound(Retired(t.locations, sha1, torrent, keep), t.contents.Keys, t.torrents.Keys,
                           t.artifacts.Keys)
  {
  }

  lemma LocationKeepsSound(t: Tables, call: Call)
    requires Sound(t) && call.SaveLocation?
    ensures Sound(Apply(t, call))
  {
    hide TasksSound, ActiveUnique, ArtifactsSound, FilesSound, LocationsSound, IsHash, Lower, SavedLocation, Retired;
    if Outcome(t, call).Ok? {
      if call.source == "" {
        SavedKeepsLocations(t, t.locations, call.remoteId, call.sha1, None, None, call.place, call.managed);
      } else {
        var hash := Lower(call.source);
        var held := OfTorrent(t.artifacts, hash);
        RetiredKeepsLocations(t, call.sha1, hash, call.remoteId);
        SavedKeepsLocations(t, Retired(t.locations, call.sha1, hash, call.remoteId), call.remoteId, call.sha1,
                            Some(hash),
                            if held == {} then None else Some(Maximum(held)), call.place, call.managed);
      }
    }
  }

  /** A task row written under a gid that has no row, or one of the same source and torrent. */
  lemma TaskKeepsSound(tasks: map<string, Task>, torrents: set<string>, gid: string, row: Task)
    requires TasksSound(tasks, torrents) && ActiveUnique(tasks) && row.torrent in torrents
    requires IsActive(row.state) ==> !Occupied(tasks, gid, row.source, row.torrent)
    ensures TasksSound(tasks[gid := row], torrents) && ActiveUnique(tasks[gid := row])
  {
  }

  lemma RecoveryKeepsSound(t: Tables, sources: set<string>)
    requires TasksSound(t.tasks, t.torrents.Keys) && ActiveUnique(t.tasks)
    ensures TasksSound(Recovered(t, sources).tasks, t.torrents.Keys) && ActiveUnique(Recovered(t, sources).tasks)
  {
  }

  lemma JobsKeepSound(t: Tables, call: Call)
    requires Sound(t)
    requires call.CreateJob? || call.UpdateJob? || call.CancelJob? || call.RecoverRunningJobs?
    ensures Sound(Apply(t, call))
  {
    hide IsHash, Lower, TasksSound, ActiveUnique, ArtifactsSound, FilesSound, LocationsSound, Occupied;
    var t' := Apply(t, call);
    GrowthKeepsSound(t, t'.torrents.Keys, t'.tasks.Keys);
    if call.RecoverRunningJobs? {
      RecoveryKeepsSound(t, call.sources);
    } else if t'.tasks != t.tasks {
      var gid := if call.CancelJob? then call.gid else call.job.gid;
      if gid in t.tasks {
        TaskTorrent(t.tasks, t.torrents.Keys, gid);
        if IsActive(t'.tasks[gid].state) {
          assert !Occupied(t.tasks, gid, t'.tasks[gid].source, t'.tasks[gid].torrent);
        }
      }
      TaskKeepsSound(t.tasks, t'.torrents.Keys, gid, t'.tasks[gid]);
    }
  }

  lemma OthersKeepSound(t: Tables, call: Call)
    requires Sound(t)
    requires call.MarkLocationDeleted? || call.MarkArtifactDeleted? || call.MarkSourceLocationsDeleted? ||
             call.DeleteJob? || call.DeleteJobAny? || call.MarkStrmSeeded?
    ensures Sound(Apply(t, call))
  {
    hide IsHash, Lower, Occupied, HasLive, OfTorrent, ArtifactsDropped;
    match call
    case MarkStrmSeeded(infoHash, paths) =>
      if Outcome(t, call).Ok? {
        forall k | k in Apply(t, call).files ensures k in t.files && Apply(t, call).files[k].sha1 == t.files[k].sha1 {
          MarksSeed(t.files, Lower(infoHash), paths, k);
        }
      }
    case MarkLocationDeleted(r) =>
      if r in t.locations {
        var l := t.locations[r];
        var t1 := t.(locations := t.locations[r := l.(live := false)]);
        if l.artifact.Some? {
          DroppedKeepsSound(t1, {l.artifact.value});
        }
      }
    case MarkArtifactDeleted(id) => DroppedKeepsSound(t, {id});
    case MarkSourceLocationsDeleted(infoHash) =>
      var gone := OfTorrent(t.artifacts, Lower(infoHash));
      DroppedKeepsSound(t.(locations := SourceLocationsRetired(t.locations, gone)), gone);
    case DeleteJob(gid) => DeletionKeepsSound(t, gid);
    case DeleteJobAny(gid) => DeletionKeepsSound(t, gid);
    case _ => assert false;
  }

  /** The artifact of a deleted task loses its reference to the task. */
  lemma DeletionKeepsSound(t: Tables, gid: string)
    requires Sound(t)
    ensures Sound(TaskDropped(t, gid))
  {
    hide IsHash, FilesSound, LocationsSound;
    var after := t.tasks - {gid};
    forall g | g in after && IsActive(after[g].state) ensures !Occupied(after, g, after[g].source, after[g].torrent) {
      assert !Occupied(t.tasks, g, t.tasks[g].source, t.tasks[g].torrent);
    }
    assert Disowned(t.artifacts, gid).Keys == t.artifacts.Keys;
  }

  // ----- Values -----

  /** The CHECKs of sizes and of the source. */
  ghost predicate ValuesSound(t: Tables) {
    && (forall h | h in t.torrents :: t.torrents[h].totalBytes >= 0)
    && (forall c | c in t.contents :: t.contents[c].sizeBytes >= 0)
    && (forall g | g in t.tasks :: t.tasks[g].source != "")
  }

  lemma FileKeepsValues(t: Tables, torrent: string, artifact: nat, file: File)
    requires ValuesSound(t) && FileSaved(t, torrent, artifact, file).Ok?
    ensures ValuesSound(FileSaved(t, torrent, artifact, file).value.0)
  {
    hide Lower, IsHash, LocationScanned, ScannedFile;
  }

  lemma {:induction false} FilesKeepValues(t: Tables, torrent: string, artifact: nat, files: seq<File>)
    requires ValuesSound(t) && FilesSaved(t, torrent, artifact, files).Ok?
    ensures ValuesSound(FilesSaved(t, torrent, artifact, files).value.0)
  {
    hide ValuesSound, FileSaved;
    if files != [] {
      var before := files[..|files| - 1];
      FilesKeepValues(t, torrent, artifact, before);
      FileKeepsValues(FilesSaved(t, torrent, artifact, before).value.0, torrent, artifact, files[|files| - 1]);
    }
  }

  lemma OpenedKeepsValues(t: Tables, scan: Scan, task: ProviderTask)
    requires ValuesSound(t) && IsHash(scan.infoHash) && scan.totalBytes >= 0
    ensures ValuesSound(ScanOpened(t, scan, task))
  {
    hide IsHash, RootFor, ArtifactFor, FilledArtifact, Absent, DirectGid;
  }

  lemma ScanKeepsValues(t: Tables, scan: Scan, task: ProviderTask)
    requires ValuesSound(t)
    ensures ValuesSound(Apply(t, SaveScan(scan, task)))
  {
    hide IsHash, ArtifactFor, ScanOpened, FilesSaved, Leftover, Cascaded;
    if ScanSaved(t, scan, task).Ok? {
      OpenedKeepsValues(t, scan, task);
      FilesKeepValues(ScanOpened(t, scan, task), scan.infoHash, ArtifactFor(t.artifacts, ScanGid(scan, task)),
                      scan.files);
    }
  }

  lemma SavedTaskKeepsValues(t: Tables, call: Call)
    requires ValuesSound(t) && call.SaveTask?
    ensures ValuesSound(Apply(t, call))
  {
    if Outcome(t, call).Err? {
      FailureKeeps(t, call);
    } else {
      SaveTaskRows(t, call);
      hide Apply, Outcome, IsHash, Lower, ArtifactFor, FilledArtifact, GidOf;
    }
  }

  lemma JobsKeepValues(t: Tables, call: Call)
    requires ValuesSound(t)
    requires !call.SaveScan? && !call.SaveTask? && !OnPlaces(call)
    ensures ValuesSound(Apply(t, call))
  {
    hide IsHash, Lower, Occupied, Disowned;
  }

  lemma ValuesStep(t: Tables, call: Call)
    requires ValuesSound(t)
    ensures ValuesSound(Apply(t, call))
  {
    hide Apply;
    if call.SaveScan? {
      ScanKeepsValues(t, call.scan, call.task);
    } else if call.SaveTask? {
      SavedTaskKeepsValues(t, call);
    } else if OnPlaces(call) {
      PlacesKeepRows(t, call);
    } else {
      JobsKeepValues(t, call);
    }
  }

  /** The constraints of the schema: foreign keys, unique indexes and CHECKs. */
  ghost predicate Constraints(t: Tables) {
    Sound(t) && ValuesSound(t) && RootsDiffer(t.torrents)
  }

  /** Every state of every run satisfies the constraints of the schema. */
  lemma {:induction false} ConstraintsAlways(calls: seq<Call>)
    ensures Constraints(Run(EMPTY, calls))
  {
    hide Apply, Sound, ValuesSound, RootsDiffer, RootsKept;
    if calls == [] {
      StartIsSound();
    } else {
      var t, call := Run(EMPTY, calls[..|calls| - 1]), calls[|calls| - 1];
      ConstraintsAlways(calls[..|calls| - 1]);
      SoundStep(t, call);
      ValuesStep(t, call);
      RootsStep(t, call);
    }
  }

  lemma StartIsSound()
    ensures Constraints(EMPTY)
  {
  }

  lemma SoundStep(t: Tables, call: Call)
    requires Sound(t)
    ensures Sound(Apply(t, call))
  {
    hide Apply, Sound;
    match call
    case SaveScan(scan, task) => ScanKeepsSound(t, scan, task);
    case SaveTask(_, _, _, _, _) => SaveTaskKeepsSound(t, call);
    case SaveLocation(_, _, _, _, _) => LocationKeepsSound(t, call);
    case CreateJob(_) => JobsKeepSound(t, call);
    case UpdateJob(_) => JobsKeepSound(t, call);
    case CancelJob(_) => JobsKeepSound(t, call);
    case RecoverRunningJobs(_) => JobsKeepSound(t, call);
    case _ => OthersKeepSound(t, call);
  }
}
