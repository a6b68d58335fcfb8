/**
 The tables behind a running service (internal/storage/sqlite/db.go) and the transactions on them
 (internal/storage/sqlite/ingest.go, internal/storage/sqlite/materialize.go). Torrents, tasks,
 contents and locations are keyed by the UNIQUE column that other calls name them by; managed
 artifacts by their row id. Of a nullable time only whether it is set is kept.
 */
module Catalogue {
  import opened Texts
  import opened Wrappers

  datatype Torrent = Torrent(magnetURI: string, displayName: string, totalBytes: int, fileCount: nat, strmRoot: string)

  datatype JobState = Queued | Running | Succeeded | Failed | Canceled

  datatype Task = Task(torrent: string, source: string, magnetURI: string, state: JobState, error: string)

  datatype Artifact = Artifact(torrent: string, createdBy: Option<string>,
                               resultId: string, deleteFileId: string, workDirId: string)

  datatype Content = Content(sizeBytes: int, preferredName: string)

  datatype TorrentFile = TorrentFile(sha1: string, seeded: bool, present: bool)

  datatype Place = Place(parentId: string, pickCode: string, path: string)

  datatype Location = Location(sha1: string, torrent: Option<string>, artifact: Option<nat>,
                               place: Place, managed: bool, live: bool)

  /** Files are keyed by torrent and relative path, locations by their remote file id. */
  datatype Tables = Tables(
    torrents: map<string, Torrent>,
    tasks: map<string, Task>,
    artifacts: map<nat, Artifact>,
    contents: map<string, Content>,
    files: map<(string, string), TorrentFile>,
    locations: map<string, Location>)

  const EMPTY := Tables(map[], map[], map[], map[], map[], map[])

  datatype Error =
    | NoRows
    | CheckFailed
    | NotUnique
    | SizeMismatch(sha1: string)
    | NoSuchFile(path: string)
    | JobNotFound
    | JobCanceled
    | WrongState(state: JobState)

  /** A scanned file, as the provider listed it. */
  datatype File = File(path: string, sha1: string, name: string, sizeBytes: int, remoteId: string, place: Place)

  /**
   A provider task with its names already made safe for a file system. SafeLibraryName itself is
   not part of this model.
   */
  datatype ProviderTask = ProviderTask(safeName: string, safeCategory: string, jobGid: string,
                                       resultId: string, deleteFileId: string, workDirId: string)

  datatype Scan = Scan(infoHash: string, magnetURI: string, name: string, safeName: string,
                       totalBytes: int, resultId: string, files: seq<File>)

  // ----- Values -----

  /** The CHECK of info_hash and sha1. */
  predicate IsHash(s: string) {
    |s| == 40 && s == Lower(s)
  }

  predicate IsActive(state: JobState) {
    state == Queued || state == Running
  }

  function DirectGid(infoHash: string): string {
    "direct-" + Lower(infoHash)
  }

  lemma {:induction false} MaximumExists(s: set<nat>)
    requires s != {}
    ensures exists m :: m in s && forall k | k in s :: k <= m
  {
    var x :| x in s;
    var rest := s - {x};
    var top := x;
    if rest != {} {
      MaximumExists(rest);
      var m :| m in rest && forall k | k in rest :: k <= m;
      top := if x < m then m else x;
    }
    forall k | k in s ensures k <= top {
      assert k == x || k in rest;
    }
    assert top in s;
  }

  function Maximum(s: set<nat>): (m: nat)
    requires s != {}
    ensures m in s && forall k | k in s :: k <= m
  {
    MaximumExists(s);
    var m :| m in s && forall k | k in s :: k <= m;
    m
  }

  /** SQLite gives a new row the id after the largest one in use. */
  function NextId(used: set<nat>): (id: nat)
    ensures id !in used && id > 0
  {
    if used == {} then 1 else Maximum(used) + 1
  }

  function OrElse(value: string, fallback: string): string {
    if value != "" then value else fallback
  }

  // ----- Rows that one statement writes -----

  function ScannedTorrent(torrents: map<string, Torrent>, scan: Scan): Torrent {
    Torrent(scan.magnetURI, scan.name, scan.totalBytes, |scan.files|,
            if scan.infoHash in torrents then torrents[scan.infoHash].strmRoot else "")
  }

  function NamedTorrent(torrents: map<string, Torrent>, hash: string, magnetURI: string,
                        name: string, totalBytes: int): Torrent {
    if hash in torrents then
      torrents[hash].(magnetURI := magnetURI,
                      displayName := OrElse(name, torrents[hash].displayName),
                      totalBytes := if totalBytes > 0 then totalBytes else torrents[hash].totalBytes)
    else Torrent(magnetURI, name, totalBytes, 0, "")
  }

  function CreatedBy(artifacts: map<nat, Artifact>, gid: string): set<nat> {
    set a | a in artifacts && artifacts[a].createdBy == Some(gid)
  }

  /** The artifact that a task fills: its own, or a new one. */
  function ArtifactFor(artifacts: map<nat, Artifact>, gid: string): nat {
    var own := CreatedBy(artifacts, gid);
    if own == {} then NextId(artifacts.Keys) else Maximum(own)
  }

  function FilledArtifact(artifacts: map<nat, Artifact>, torrent: string, gid: string,
                          task: ProviderTask, resultId: string): Artifact {
    var id := ArtifactFor(artifacts, gid);
    var result := OrElse(resultId, task.resultId);
    if id in artifacts then
      artifacts[id].(resultId := OrElse(result, artifacts[id].resultId),
                     deleteFileId := OrElse(task.deleteFileId, artifacts[id].deleteFileId),
                     workDirId := OrElse(task.workDirId, artifacts[id].workDirId))
    else Artifact(torrent, Some(gid), result, task.deleteFileId, task.workDirId)
  }

  /** Other live managed copies of a content for a torrent, or for no torrent, are deleted. */
  function Retired(locations: map<string, Location>, sha1: string, torrent: string, keep: string):
    map<string, Location>
  {
    map r | r in locations ::
      var l := locations[r];
      if l.managed && l.live && l.sha1 == sha1 && (l.torrent.None? || l.torrent == Some(torrent)) && r != keep
      then l.(live := false) else l
  }

  function ScannedLocation(locations: map<string, Location>, sha1: string, torrent: string, artifact: nat,
                           file: File): Location {
    Location(sha1, Some(torrent), Some(artifact), file.place,
             if file.remoteId in locations then locations[file.remoteId].managed else true, true)
  }

  function SavedLocation(locations: map<string, Location>, remoteId: string, sha1: string, torrent: Option<string>,
                         artifact: Option<nat>, place: Place, managed: bool): Location {
    if remoteId in locations then
      var l := locations[remoteId];
      Location(sha1, if torrent.Some? then torrent else l.torrent, if artifact.Some? then artifact else l.artifact,
               place, l.managed || managed, true)
    else Location(sha1, torrent, artifact, place, managed, true)
  }

  function ScannedFile(files: map<(string, string), TorrentFile>, torrent: string, path: string, sha1: string):
    TorrentFile
  {
    var key := (torrent, path);
    TorrentFile(sha1, key in files && files[key].sha1 == sha1 && files[key].seeded, true)
  }

  /** The foreign key of a location is ON DELETE CASCADE. */
  function Cascaded(locations: map<string, Location>, gone: set<nat>): map<string, Location> {
    map r | r in locations && !(locations[r].artifact.Some? && locations[r].artifact.value in gone) :: locations[r]
  }

  function ArtifactsDropped(t: Tables, gone: set<nat>): Tables {
    t.(artifacts := t.artifacts - gone, locations := Cascaded(t.locations, gone))
  }

  predicate HasLive(locations: map<string, Location>, artifact: nat) {
    exists r | r in locations :: locations[r].artifact == Some(artifact) && locations[r].live
  }

  /** Artifacts of the torrent that hold nothing any more and whose task is over. */
  function Leftover(t: Tables, torrent: string, keep: nat): set<nat> {
    set a | a in t.artifacts && t.artifacts[a].torrent == torrent && a != keep && !HasLive(t.locations, a) &&
            (t.artifacts[a].createdBy.None? ||
             (t.artifacts[a].createdBy.value in t.tasks && !IsActive(t.tasks[t.artifacts[a].createdBy.value].state)))
  }

  function OfTorrent(artifacts: map<nat, Artifact>, torrent: string): set<nat> {
    set a | a in artifacts && artifacts[a].torrent == torrent
  }

  function SourceLocationsRetired(locations: map<string, Location>, gone: set<nat>): map<string, Location> {
    map r | r in locations ::
      var l := locations[r];
      if l.managed && l.live && l.artifact.Some? && l.artifact.value in gone then l.(live := false) else l
  }

  function Absent(files: map<(string, string), TorrentFile>, torrent: string): map<(string, string), TorrentFile> {
    map k | k in files :: if k.0 == torrent then files[k].(present := false) else files[k]
  }

  /** The foreign key of an artifact is ON DELETE SET NULL. */
  function Disowned(artifacts: map<nat, Artifact>, gid: string): map<nat, Artifact> {
    map a | a in artifacts ::
      if artifacts[a].createdBy == Some(gid) then artifacts[a].(createdBy := None) else artifacts[a]
  }

  // ----- STRM roots -----

  function Decimal(n: nat): string {
    if n < 10 then [('0' as int + n) as char] else Decimal(n / 10) + [('0' as int + n % 10) as char]
  }

  function Candidate(preferred: string, infoHash: string, sequence: nat): string
    requires |infoHash| >= 8
  {
    if sequence <= 1 then preferred
    else if sequence == 2 then preferred + " [" + infoHash[..8] + "]"
    else preferred + " [" + infoHash[..8] + "-" + Decimal(sequence) + "]"
  }

  function Roots(torrents: map<string, Torrent>): set<string> {
    set h | h in torrents :: torrents[h].strmRoot
  }

  function PreferredRoot(scan: Scan, task: ProviderTask): string {
    var name := OrElse(task.safeName, OrElse(scan.safeName, scan.infoHash));
    if task.safeCategory != "" then task.safeCategory + "/" + name else name
  }

  lemma {:induction false} DecimalInjective(m: nat, n: nat)
    requires Decimal(m) == Decimal(n)
    ensures m == n
  {
    var x, y := Decimal(m), Decimal(n);
    DecimalNotEmpty(m / 10);
    DecimalNotEmpty(n / 10);
    assert x[|x| - 1] == y[|y| - 1];
    if m >= 10 && n >= 10 {
      assert x[..|x| - 1] == Decimal(m / 10) && y[..|y| - 1] == Decimal(n / 10);
      DecimalInjective(m / 10, n / 10);
    }
  }

  lemma DecimalNotEmpty(n: nat)
    ensures Decimal(n) != ""
  {
  }

  lemma CandidatesDiffer(preferred: string, infoHash: string, i: nat, j: nat)
    requires |infoHash| >= 8 && 1 <= i < j
    ensures Candidate(preferred, infoHash, i) != Candidate(preferred, infoHash, j)
  {
    var a, b := Candidate(preferred, infoHash, i), Candidate(preferred, infoHash, j);
    if i == 1 {
      assert |a| < |b|;
    } else if i == 2 {
      assert a[|preferred| + 10] == ']';
      assert b[|preferred| + 10] == '-';
    } else if a == b {
      var k := |preferred| + 11;
      assert a[k..|a| - 1] == Decimal(i);
      assert b[k..|b| - 1] == Decimal(j);
      DecimalInjective(i, j);
    }
  }

  /** The names in use that are still to be met. */
  ghost function Unmet(roots: set<string>, preferred: string, infoHash: string, sequence: nat): set<string>
    requires |infoHash| >= 8
  {
    roots - set k | 1 <= k < sequence :: Candidate(preferred, infoHash, k)
  }

  lemma UnmetShrinks(roots: set<string>, preferred: string, infoHash: string, sequence: nat)
    requires |infoHash| >= 8 && sequence >= 1 && Candidate(preferred, infoHash, sequence) in roots
    ensures |Unmet(roots, preferred, infoHash, sequence + 1)| < |Unmet(roots, preferred, infoHash, sequence)|
  {
    var name := Candidate(preferred, infoHash, sequence);
    forall k | 1 <= k < sequence ensures Candidate(preferred, infoHash, k) != name {
      CandidatesDiffer(preferred, infoHash, k, sequence);
    }
    var before, after := Unmet(roots, preferred, infoHash, sequence), Unmet(roots, preferred, infoHash, sequence + 1);
    assert name in before && after == before - {name};
  }

  /** The first candidate from a number on that no torrent uses. */
  ghost function FirstFree(roots: set<string>, preferred: string, infoHash: string, sequence: nat): (n: nat)
    requires |infoHash| >= 8 && sequence >= 1
    ensures n >= sequence && Candidate(preferred, infoHash, n) !in roots
    ensures forall k | sequence <= k < n :: Candidate(preferred, infoHash, k) in roots
    decreases |Unmet(roots, preferred, infoHash, sequence)|
  {
    if Candidate(preferred, infoHash, sequence) !in roots then sequence
    else
      UnmetShrinks(roots, preferred, infoHash, sequence);
      FirstFree(roots, preferred, infoHash, sequence + 1)
  }

  // ----- Transactions as functions of the tables -----

  function ContentSaved(contents: map<string, Content>, sha1: string, file: File): map<string, Content> {
    contents[sha1 :=
      if sha1 in contents then contents[sha1].(preferredName := OrElse(contents[sha1].preferredName, file.name))
      else Content(file.sizeBytes, file.name)]
  }

  function LocationScanned(locations: map<string, Location>, sha1: string, torrent: string, artifact: nat,
                           file: File): map<string, Location> {
    var retired := Retired(locations, sha1, torrent, file.remoteId);
    retired[file.remoteId := ScannedLocation(retired, sha1, torrent, artifact, file)]
  }

  /** The tables after one file of a scan, and whether the file still needs its STRM. */
  function FileSaved(t: Tables, torrent: string, artifact: nat, file: File): Result<(Tables, bool), Error> {
    var sha1 := Lower(file.sha1);
    if !IsHash(sha1) || file.sizeBytes < 0 then Err(CheckFailed)
    else if sha1 in t.contents && t.contents[sha1].sizeBytes != file.sizeBytes then Err(SizeMismatch(file.sha1))
    else
      var row := ScannedFile(t.files, torrent, file.path, sha1);
      Ok((t.(contents := ContentSaved(t.contents, sha1, file),
             locations := LocationScanned(t.locations, sha1, torrent, artifact, file),
             files := t.files[(torrent, file.path) := row]),
          !row.seeded))
  }

  function FilesSaved(t: Tables, torrent: string, artifact: nat, files: seq<File>): Result<(Tables, seq<bool>), Error> {
    if files == [] then Ok((t, []))
    else
      match FilesSaved(t, torrent, artifact, files[..|files| - 1])
      case Err(e) => Err(e)
      case Ok(done) =>
        match FileSaved(done.0, torrent, artifact, files[|files| - 1])
        case Err(e) => Err(e)
        case Ok(next) => Ok((next.0, done.1 + [next.1]))
  }

  function ScanGid(scan: Scan, task: ProviderTask): string {
    if task.jobGid != "" then task.jobGid else DirectGid(scan.infoHash)
  }

  function ScanTasks(tasks: map<string, Task>, scan: Scan, task: ProviderTask): map<string, Task> {
    var gid := ScanGid(scan, task);
    if task.jobGid != "" then tasks
    else if gid in tasks then tasks[gid := tasks[gid].(state := Succeeded)]
    else tasks[gid := Task(scan.infoHash, "direct", scan.magnetURI, Succeeded, "")]
  }

  ghost function RootFor(torrents: map<string, Torrent>, scan: Scan, task: ProviderTask): string
    requires IsHash(scan.infoHash)
  {
    if scan.infoHash in torrents && torrents[scan.infoHash].strmRoot != "" then torrents[scan.infoHash].strmRoot
    else
      var roots := Roots(torrents[scan.infoHash := ScannedTorrent(torrents, scan)]);
      var preferred := PreferredRoot(scan, task);
      Candidate(preferred, scan.infoHash, FirstFree(roots, preferred, scan.infoHash, 1))
  }

  /** Everything SaveScan does before it comes to the files. */
  ghost function ScanOpened(t: Tables, scan: Scan, task: ProviderTask): Tables
    requires IsHash(scan.infoHash)
  {
    var gid := ScanGid(scan, task);
    t.(torrents := t.torrents[scan.infoHash :=
                     ScannedTorrent(t.torrents, scan).(strmRoot := RootFor(t.torrents, scan, task))],
       tasks := ScanTasks(t.tasks, scan, task),
       artifacts := t.artifacts[ArtifactFor(t.artifacts, gid) :=
                      FilledArtifact(t.artifacts, scan.infoHash, gid, task, scan.resultId)],
       files := Absent(t.files, scan.infoHash))
  }

  /** The tables and, for every file, whether it still needs its STRM; an error changes nothing. */
  ghost function ScanSaved(t: Tables, scan: Scan, task: ProviderTask): Result<(Tables, seq<bool>), Error> {
    if !IsHash(scan.infoHash) || scan.totalBytes < 0 then Err(CheckFailed)
    else if task.jobGid != "" && task.jobGid !in t.tasks then Err(NoRows)
    else
      var artifact := ArtifactFor(t.artifacts, ScanGid(scan, task));
      match FilesSaved(ScanOpened(t, scan, task), scan.infoHash, artifact, scan.files)
      case Err(e) => Err(e)
      case Ok(done) => Ok((ArtifactsDropped(done.0, Leftover(done.0, scan.infoHash, artifact)), done.1))
  }

  /** A torrent without any task gets a direct one, unless the call belongs to a job. */
  function SavedTasks(tasks: map<string, Task>, gid: string, hash: string, magnetURI: string,
                      task: ProviderTask): map<string, Task> {
    if task.jobGid != "" || gid in tasks || (exists g | g in tasks :: tasks[g].torrent == hash) then tasks
    else tasks[gid := Task(hash, "direct", magnetURI, Running, "")]
  }

  function TaskSaved(t: Tables, magnetURI: string, infoHash: string, name: string, totalBytes: int,
                     task: ProviderTask): Result<Tables, Error> {
    var hash := Lower(infoHash);
    if !IsHash(hash) || totalBytes < 0 then Err(CheckFailed)
    else
      var gid := if task.jobGid != "" then task.jobGid else DirectGid(infoHash);
      var torrents := t.torrents[hash := NamedTorrent(t.torrents, hash, magnetURI, name, totalBytes)];
      var tasks := SavedTasks(t.tasks, gid, hash, magnetURI, task);
      if task.resultId == "" && task.deleteFileId == "" && task.workDirId == "" then
        Ok(t.(torrents := torrents, tasks := tasks))
      else if gid !in tasks then Err(NoRows)
      else
        Ok(t.(torrents := torrents, tasks := tasks,
              artifacts := t.artifacts[ArtifactFor(t.artifacts, gid) :=
                             FilledArtifact(t.artifacts, tasks[gid].torrent, gid, task, task.resultId)]))
  }

  function LocationSaved(t: Tables, sha1: string, remoteId: string, place: Place, managed: bool,
                         source: string): Result<Tables, Error> {
    var hash := Lower(source);
    if source != "" && hash !in t.torrents then Err(NoRows)
    else if sha1 !in t.contents then Err(CheckFailed)
    else if source == "" then
      Ok(t.(locations := t.locations[remoteId :=
                            SavedLocation(t.locations, remoteId, sha1, None, None, place, managed)]))
    else
      var held := OfTorrent(t.artifacts, hash);
      var artifact := if held == {} then None else Some(Maximum(held));
      var retired := Retired(t.locations, sha1, hash, remoteId);
      Ok(t.(locations := retired[remoteId :=
                            SavedLocation(retired, remoteId, sha1, Some(hash), artifact, place, managed)]))
  }

  function LocationDeleted(t: Tables, remoteId: string): Tables {
    if remoteId !in t.locations then t
    else
      var l := t.locations[remoteId];
      var t' := t.(locations := t.locations[remoteId := l.(live := false)]);
      if l.artifact.Some? && !HasLive(t'.locations, l.artifact.value) then ArtifactsDropped(t', {l.artifact.value})
      else t'
  }

  function ArtifactDeleted(t: Tables, id: nat): Tables {
    if id == 0 then t else ArtifactsDropped(t, {id})
  }

  function SourceDeleted(t: Tables, infoHash: string): Tables {
    var gone := OfTorrent(t.artifacts, Lower(infoHash));
    ArtifactsDropped(t.(locations := SourceLocationsRetired(t.locations, gone)), gone)
  }

  function Seeded(files: map<(string, string), TorrentFile>, torrent: string, paths: seq<string>):
    Result<map<(string, string), TorrentFile>, Error>
  {
    if paths == [] then Ok(files)
    else
      match Seeded(files, torrent, paths[..|paths| - 1])
      case Err(e) => Err(e)
      case Ok(done) =>
        var key := (torrent, paths[|paths| - 1]);
        if key in done then Ok(done[key := done[key].(seeded := true)]) else Err(NoSuchFile(key.1))
  }

  function StrmsSeeded(t: Tables, infoHash: string, paths: seq<string>): Result<Tables, Error> {
    match Seeded(t.files, Lower(infoHash), paths)
    case Err(e) => Err(e)
    case Ok(files) => Ok(t.(files := files))
  }

  /** Another active task of the same source and torrent: the partial unique index. */
  predicate Occupied(tasks: map<string, Task>, gid: string, source: string, torrent: string) {
    exists g | g in tasks ::
      g != gid && tasks[g].source == source && tasks[g].torrent == torrent && IsActive(tasks[g].state)
  }

  datatype Job = Job(gid: string, source: string, infoHash: string, magnetURI: string, state: JobState, error: string)

  function JobCreated(t: Tables, job: Job): Result<Tables, Error> {
    var hash := Lower(job.infoHash);
    var source := OrElse(job.source, "aria2");
    if !IsHash(hash) then Err(CheckFailed)
    else if job.gid in t.tasks || (IsActive(job.state) && Occupied(t.tasks, job.gid, source, hash)) then Err(NotUnique)
    else
      Ok(t.(torrents := t.torrents[hash :=
              if hash in t.torrents then t.torrents[hash].(magnetURI := job.magnetURI)
              else Torrent(job.magnetURI, "", 0, 0, "")],
            tasks := t.tasks[job.gid := Task(hash, source, job.magnetURI, job.state, "")]))
  }

  function JobUpdated(t: Tables, job: Job): Result<Tables, Error> {
    if job.gid !in t.tasks then Err(JobNotFound)
    else
      var row := t.tasks[job.gid];
      if row.state == Canceled && job.state != Canceled then Err(JobCanceled)
      else if IsActive(job.state) && Occupied(t.tasks, job.gid, row.source, row.torrent) then Err(NotUnique)
      else Ok(t.(tasks := t.tasks[job.gid := row.(magnetURI := job.magnetURI, state := job.state, error := job.error)]))
  }

  function JobCancelled(t: Tables, gid: string): Result<Tables, Error> {
    if gid !in t.tasks then Err(JobNotFound)
    else if t.tasks[gid].state == Canceled then Ok(t)
    else if t.tasks[gid].state == Succeeded then Err(WrongState(Succeeded))
    else Ok(t.(tasks := t.tasks[gid := t.tasks[gid].(state := Canceled, error := "")]))
  }

  function TaskDropped(t: Tables, gid: string): Tables {
    t.(tasks := t.tasks - {gid}, artifacts := Disowned(t.artifacts, gid))
  }

  function JobDeleted(t: Tables, gid: string): Result<Tables, Error> {
    if gid !in t.tasks then Err(JobNotFound)
    else if IsActive(t.tasks[gid].state) then Err(WrongState(t.tasks[gid].state))
    else Ok(TaskDropped(t, gid))
  }

  /** Running tasks of the given sources are queued again. */
  function Recovered(t: Tables, sources: set<string>): Tables {
    t.(tasks := map g | g in t.tasks ::
         var row := t.tasks[g];
         if row.state == Running && row.source in sources then row.(state := Queued, error := "") else row)
  }

  function AllSources(t: Tables): set<string> {
    set g | g in t.tasks :: t.tasks[g].source
  }

  // ----- The repository -----

  class Repository {
    var torrents: map<string, Torrent>
    var tasks: map<string, Task>
    var artifacts: map<nat, Artifact>
    var contents: map<string, Content>
    var files: map<(string, string), TorrentFile>
    var locations: map<string, Location>

    function View(): Tables
      reads this
    {
      Tables(torrents, tasks, artifacts, contents, files, locations)
    }

    constructor ()
      ensures View() == EMPTY
    {
      torrents, tasks, artifacts, contents, files, locations := map[], map[], map[], map[], map[], map[];
    }

    method Rollback(before: Tables)
      modifies this
      ensures View() == before
    {
      torrents, tasks, artifacts := before.torrents, before.tasks, before.artifacts;
      contents, files, locations := before.contents, before.files, before.locations;
    }

    method UpsertManagedArtifact(torrent: string, gid: string, task: ProviderTask, resultId: string) returns (id: nat)
      modifies this`artifacts
      ensures id == ArtifactFor(old(artifacts), gid)
      ensures artifacts == old(artifacts)[id := FilledArtifact(old(artifacts), torrent, gid, task, resultId)]
    {
      var result := if resultId == "" then task.resultId else resultId;
      var own := CreatedBy(artifacts, gid);
      if own != {} {
        id := Maximum(own);
        var row := artifacts[id];
        if result != "" {
          row := row.(resultId := result);
        }
        if task.deleteFileId != "" {
          row := row.(deleteFileId := task.deleteFileId);
        }
        if task.workDirId != "" {
          row := row.(workDirId := task.workDirId);
        }
        artifacts := artifacts[id := row];
      } else {
        id := NextId(artifacts.Keys);
        artifacts := artifacts[id := Artifact(torrent, Some(gid), result, task.deleteFileId, task.workDirId)];
      }
    }

    /** Terminates because the candidates differ and every one that is taken is some torrent's root. */
    method AvailableStrmRoot(preferred: string, infoHash: string) returns (root: string)
      requires |infoHash| >= 8
      ensures root == Candidate(preferred, infoHash, FirstFree(Roots(torrents), preferred, infoHash, 1))
    {
      var sequence := 1;
      root := preferred;
      while root in Roots(torrents)
        invariant sequence >= 1 && root == Candidate(preferred, infoHash, sequence)
        invariant FirstFree(Roots(torrents), preferred, infoHash, sequence)
               == FirstFree(Roots(torrents), preferred, infoHash, 1)
        decreases |Unmet(Roots(torrents), preferred, infoHash, sequence)|
      {
        UnmetShrinks(Roots(torrents), preferred, infoHash, sequence);
        sequence := sequence + 1;
        if sequence == 2 {
          root := preferred + " [" + infoHash[..8] + "]";
        } else {
          root := preferred + " [" + infoHash[..8] + "-" + Decimal(sequence) + "]";
        }
      }
    }

    method UpsertContent(sha1: string, file: File) returns (saved: bool)
      modifies this`contents
      ensures saved == !(sha1 in old(contents) && old(contents)[sha1].sizeBytes != file.sizeBytes)
      ensures saved ==> contents == ContentSaved(old(contents), sha1, file)
    {
      if sha1 in contents {
        if contents[sha1].preferredName == "" {
          contents := contents[sha1 := contents[sha1].(preferredName := file.name)];
        }
      } else {
        contents := contents[sha1 := Content(file.sizeBytes, file.name)];
      }
      saved := contents[sha1].sizeBytes == file.sizeBytes;
      assert saved ==> contents == ContentSaved(old(contents), sha1, file);
    }

    method UpsertRemoteLocation(sha1: string, torrent: string, artifact: nat, file: File)
      modifies this`locations
      ensures locations == LocationScanned(old(locations), sha1, torrent, artifact, file)
    {
      locations := Retired(locations, sha1, torrent, file.remoteId);
      if file.remoteId in locations {
        var row := locations[file.remoteId];
        locations := locations[file.remoteId :=
          row.(sha1 := sha1, torrent := Some(torrent), artifact := Some(artifact), place := file.place, live := true)];
      } else {
        locations := locations[file.remoteId := Location(sha1, Some(torrent), Some(artifact), file.place, true, true)];
      }
    }

    method SaveFile(torrent: string, artifact: nat, file: File) returns (needs: Result<bool, Error>)
      modifies this`contents, this`locations, this`files
      ensures match FileSaved(old(View()), torrent, artifact, file)
              case Err(e) => needs == Err(e)
              case Ok(done) => View() == done.0 && needs == Ok(done.1)
    {
      var sha1 := Lower(file.sha1);
      if !IsHash(sha1) || file.sizeBytes < 0 {
        return Err(CheckFailed);
      }
      var saved := UpsertContent(sha1, file);
      if !saved {
        return Err(SizeMismatch(file.sha1));
      }
      UpsertRemoteLocation(sha1, torrent, artifact, file);
      var key := (torrent, file.path);
      if key in files {
        var row := files[key];
        files := files[key := TorrentFile(sha1, row.seeded && row.sha1 == sha1, true)];
      } else {
        files := files[key := TorrentFile(sha1, false, true)];
      }
      needs := Ok(!files[key].seeded);
    }

    method TaskOfScan(scan: Scan, task: ProviderTask) returns (gid: string)
      modifies this`tasks
      ensures gid == ScanGid(scan, task) && tasks == ScanTasks(old(tasks), scan, task)
    {
      gid := task.jobGid;
      if gid == "" {
        gid := DirectGid(scan.infoHash);
        if gid in tasks {
          tasks := tasks[gid := tasks[gid].(state := Succeeded)];
        } else {
          tasks := tasks[gid := Task(scan.infoHash, "direct", scan.magnetURI, Succeeded, "")];
        }
      }
    }

    /** What SaveScan does before it comes to the files. */
    method OpenScan(scan: Scan, task: ProviderTask) returns (artifact: nat)
      requires IsHash(scan.infoHash) && (task.jobGid != "" ==> task.jobGid in tasks)
      modifies this
      ensures View() == ScanOpened(old(View()), scan, task)
      ensures artifact == ArtifactFor(old(artifacts), ScanGid(scan, task))
    {
      assert |scan.infoHash| == 40;
      assert ScannedTorrent(torrents, scan).strmRoot
          == if scan.infoHash in torrents then torrents[scan.infoHash].strmRoot else "";
      hide ScannedTorrent, FilledArtifact, ArtifactFor, PreferredRoot, FirstFree, Candidate, Absent, DirectGid,
           Lower, Roots, IsHash, ScanTasks, ScanGid;
      ghost var before := torrents;
      torrents := torrents[scan.infoHash := ScannedTorrent(torrents, scan)];
      var strmRoot := torrents[scan.infoHash].strmRoot;
      var gid := TaskOfScan(scan, task);
      artifact := UpsertManagedArtifact(scan.infoHash, gid, task, scan.resultId);
      if strmRoot == "" {
        strmRoot := AvailableStrmRoot(PreferredRoot(scan, task), scan.infoHash);
        torrents := torrents[scan.infoHash := torrents[scan.infoHash].(strmRoot := strmRoot)];
      }
      assert strmRoot == RootFor(before, scan, task);
      hide RootFor;
      assert torrents == before[scan.infoHash := ScannedTorrent(before, scan).(strmRoot := strmRoot)];
      files := Absent(files, scan.infoHash);
    }

    method SaveFiles(torrent: string, artifact: nat, list: seq<File>) returns (needs: Result<seq<bool>, Error>)
      modifies this`contents, this`locations, this`files
      ensures match FilesSaved(old(View()), torrent, artifact, list)
              case Err(e) => needs == Err(e)
              case Ok(done) => View() == done.0 && needs == Ok(done.1)
    {
      hide FileSaved;
      ghost var start := View();
      var flags: seq<bool> := [];
      var index := 0;
      while index < |list|
        invariant 0 <= index <= |list|
        invariant FilesSaved(start, torrent, artifact, list[..index]) == Ok((View(), flags))
      {
        assert list[..index + 1][..index] == list[..index];
        var saved := SaveFile(torrent, artifact, list[index]);
        if saved.Err? {
          FailureIsFinal(start, torrent, artifact, list, index + 1);
          return Err(saved.error);
        }
        flags := flags + [saved.value];
        index := index + 1;
      }
      assert list[..index] == list;
      needs := Ok(flags);
    }

    method SaveScan(scan: Scan, task: ProviderTask) returns (needs: Result<seq<bool>, Error>)
      modifies this
      ensures match ScanSaved(old(View()), scan, task)
              case Err(e) => needs == Err(e) && View() == old(View())
              case Ok(done) => needs == Ok(done.1) && View() == done.0
    {
      hide FilesSaved, ScanOpened, ArtifactFor, Leftover;
      var before := View();
      if !IsHash(scan.infoHash) || scan.totalBytes < 0 {
        return Err(CheckFailed);
      }
      if task.jobGid != "" && task.jobGid !in tasks {
        return Err(NoRows);
      }
      var artifact := OpenScan(scan, task);
      needs := SaveFiles(scan.infoHash, artifact, scan.files);
      if needs.Err? {
        Rollback(before);
        return needs;
      }
      var gone := Leftover(View(), scan.infoHash, artifact);
      artifacts, locations := artifacts - gone, Cascaded(locations, gone);
    }

    method InsertDirectTask(gid: string, hash: string, magnetURI: string, task: ProviderTask)
      modifies this`tasks
      ensures tasks == SavedTasks(old(tasks), gid, hash, magnetURI, task)
    {
      var affected := if task.jobGid != "" then gid in tasks else exists g | g in tasks :: tasks[g].torrent == hash;
      if !affected && task.jobGid == "" && gid !in tasks {
        tasks := tasks[gid := Task(hash, "direct", magnetURI, Running, "")];
      }
    }

    method SaveTask(magnetURI: string, infoHash: string, name: string, totalBytes: int,
                    task: ProviderTask) returns (done: Result<(), Error>)
      modifies this
      ensures match TaskSaved(old(View()), magnetURI, infoHash, name, totalBytes, task)
              case Err(e) => done == Err(e) && View() == old(View())
              case Ok(t) => done == Ok(()) && View() == t
    {
      hide FilledArtifact, ArtifactFor, NamedTorrent, IsHash, Lower, DirectGid, SavedTasks;
      var before := View();
      var hash := Lower(infoHash);
      if !IsHash(hash) || totalBytes < 0 {
        return Err(CheckFailed);
      }
      torrents := torrents[hash := NamedTorrent(torrents, hash, magnetURI, name, totalBytes)];
      var gid := if task.jobGid != "" then task.jobGid else DirectGid(infoHash);
      InsertDirectTask(gid, hash, magnetURI, task);
      if task.resultId != "" || task.deleteFileId != "" || task.workDirId != "" {
        if gid !in tasks {
          Rollback(before);
          return Err(NoRows);
        }
        var _ := UpsertManagedArtifact(tasks[gid].torrent, gid, task, task.resultId);
      }
      done := Ok(());
    }

    method SaveLocation(sha1: string, remoteId: string, place: Place, managed: bool, source: string)
      returns (done: Result<(), Error>)
      modifies this
      ensures match LocationSaved(old(View()), sha1, remoteId, place, managed, source)
              case Err(e) => done == Err(e) && View() == old(View())
              case Ok(t) => done == Ok(()) && View() == t
    {
      var torrent, artifact := None, None;
      if source != "" {
        if Lower(source) !in torrents {
          return Err(NoRows);
        }
        torrent := Some(Lower(source));
        var held := OfTorrent(artifacts, torrent.value);
        if held != {} {
          artifact := Some(Maximum(held));
        }
      }
      if sha1 !in contents {
        return Err(CheckFailed);
      }
      if torrent.Some? {
        locations := Retired(locations, sha1, torrent.value, remoteId);
      }
      if remoteId in locations {
        var row := locations[remoteId].(sha1 := sha1, place := place, live := true);
        if torrent.Some? {
          row := row.(torrent := torrent);
        }
        if artifact.Some? {
          row := row.(artifact := artifact);
        }
        if !row.managed {
          row := row.(managed := managed);
        }
        locations := locations[remoteId := row];
      } else {
        locations := locations[remoteId := Location(sha1, torrent, artifact, place, managed, true)];
      }
      done := Ok(());
    }

    /** An id that names no row stands for a location that is gone. */
    method MarkLocationDeleted(remoteId: string)
      modifies this
      ensures View() == LocationDeleted(old(View()), remoteId)
    {
      if remoteId in locations {
        var artifact := locations[remoteId].artifact;
        locations := locations[remoteId := locations[remoteId].(live := false)];
        if artifact.Some? && !HasLive(locations, artifact.value) {
          MarkArtifactsDeleted({artifact.value});
        }
      }
    }

    method MarkArtifactsDeleted(gone: set<nat>)
      modifies this
      ensures View() == ArtifactsDropped(old(View()), gone)
    {
      artifacts, locations := artifacts - gone, Cascaded(locations, gone);
    }

    method MarkArtifactDeleted(id: nat)
      modifies this
      ensures View() == ArtifactDeleted(old(View()), id)
    {
      if id != 0 {
        MarkArtifactsDeleted({id});
      }
    }

    method MarkSourceLocationsDeleted(infoHash: string)
      modifies this
      ensures View() == SourceDeleted(old(View()), infoHash)
    {
      var gone := OfTorrent(artifacts, Lower(infoHash));
      locations := SourceLocationsRetired(locations, gone);
      MarkArtifactsDeleted(gone);
    }

    method MarkStrmSeeded(infoHash: string, paths: seq<string>) returns (done: Result<(), Error>)
      modifies this
      ensures match StrmsSeeded(old(View()), infoHash, paths)
              case Err(e) => done == Err(e) && View() == old(View())
              case Ok(t) => done == Ok(()) && View() == t
    {
      var before := View();
      var torrent := Lower(infoHash);
      var index := 0;
      while index < |paths|
        invariant 0 <= index <= |paths|
        invariant View() == before.(files := files)
        invariant Seeded(before.files, torrent, paths[..index]) == Ok(files)
      {
        assert paths[..index + 1][..index] == paths[..index];
        var key := (torrent, paths[index]);
        if key !in files {
          MissingPathFails(before.files, torrent, paths, index + 1);
          Rollback(before);
          return Err(NoSuchFile(key.1));
        }
        files := files[key := files[key].(seeded := true)];
        index := index + 1;
      }
      assert paths[..index] == paths;
      done := Ok(());
    }

    method CreateJob(job: Job) returns (done: Result<(), Error>)
      modifies this
      ensures match JobCreated(old(View()), job)
              case Err(e) => done == Err(e) && View() == old(View())
              case Ok(t) => done == Ok(()) && View() == t
    {
      var hash := Lower(job.infoHash);
      if !IsHash(hash) {
        return Err(CheckFailed);
      }
      var source := if job.source == "" then "aria2" else job.source;
      if job.gid in tasks || (IsActive(job.state) && Occupied(tasks, job.gid, source, hash)) {
        return Err(NotUnique);
      }
      torrents := torrents[hash := if hash in torrents then torrents[hash].(magnetURI := job.magnetURI)
                                   else Torrent(job.magnetURI, "", 0, 0, "")];
      tasks := tasks[job.gid := Task(hash, source, job.magnetURI, job.state, "")];
      done := Ok(());
    }

    method UpdateJob(job: Job) returns (done: Result<(), Error>)
      modifies this
      ensures match JobUpdated(old(View()), job)
              case Err(e) => done == Err(e) && View() == old(View())
              case Ok(t) => done == Ok(()) && View() == t
    {
      if job.gid in tasks && (tasks[job.gid].state != Canceled || job.state == Canceled) {
        var row := tasks[job.gid];
        if IsActive(job.state) && Occupied(tasks, job.gid, row.source, row.torrent) {
          return Err(NotUnique);
        }
        tasks := tasks[job.gid := row.(magnetURI := job.magnetURI, state := job.state, error := job.error)];
        return Ok(());
      }
      done := Err(if job.gid in tasks then JobCanceled else JobNotFound);
    }

    method CancelJob(gid: string) returns (done: Result<(), Error>)
      modifies this
      ensures match JobCancelled(old(View()), gid)
              case Err(e) => done == Err(e) && View() == old(View())
              case Ok(t) => done == Ok(()) && View() == t
    {
      if gid in tasks && tasks[gid].state in {Queued, Running, Failed} {
        tasks := tasks[gid := tasks[gid].(state := Canceled, error := "")];
        return Ok(());
      }
      if gid !in tasks {
        return Err(JobNotFound);
      }
      done := if tasks[gid].state == Canceled then Ok(()) else Err(WrongState(tasks[gid].state));
    }

    method DeleteJob(gid: string) returns (done: Result<(), Error>)
      modifies this
      ensures match JobDeleted(old(View()), gid)
              case Err(e) => done == Err(e) && View() == old(View())
              case Ok(t) => done == Ok(()) && View() == t
    {
      if gid in tasks && tasks[gid].state in {Canceled, Failed, Succeeded} {
        DeleteJobAny(gid);
        return Ok(());
      }
      done := Err(if gid in tasks then WrongState(tasks[gid].state) else JobNotFound);
    }

    method DeleteJobAny(gid: string)
      modifies this
      ensures View() == TaskDropped(old(View()), gid)
    {
      tasks, artifacts := tasks - {gid}, Disowned(artifacts, gid);
    }

    method RecoverRunningJobsBySource(sources: set<string>)
      modifies this
      ensures View() == Recovered(old(View()), sources)
    {
      tasks := map g | g in tasks ::
        if tasks[g].state == Running && tasks[g].source in sources then tasks[g].(state := Queued, error := "")
        else tasks[g];
    }
  }

  lemma {:induction false} MissingPathFails(files: map<(string, string), TorrentFile>, torrent: string,
                                            paths: seq<string>, n: nat)
    requires n <= |paths| && Seeded(files, torrent, paths[..n]).Err?
    ensures Seeded(files, torrent, paths) == Seeded(files, torrent, paths[..n])
  {
    if n == |paths| {
      assert paths[..n] == paths;
    } else {
      var shorter := paths[..|paths| - 1];
      assert shorter[..n] == paths[..n];
      MissingPathFails(files, torrent, shorter, n);
    }
  }

  lemma {:induction false} FailureIsFinal(t: Tables, torrent: string, artifact: nat, files: seq<File>, n: nat)
    requires n <= |files| && FilesSaved(t, torrent, artifact, files[..n]).Err?
    ensures FilesSaved(t, torrent, artifact, files) == FilesSaved(t, torrent, artifact, files[..n])
  {
    if n == |files| {
      assert files[..n] == files;
    } else {
      var shorter := files[..|files| - 1];
      assert shorter[..n] == files[..n];
      FailureIsFinal(t, torrent, artifact, shorter, n);
    }
  }
}
