/**
 Upgrading a database of schema version 8, 9 or 10 to version 11
 (internal/storage/sqlite/migrations.go, internal/storage/sqlite/db.go). Legacy jobs are keyed by gid,
 other rows by row id. A dropped column becomes empty. Where SQL leaves the order of rows open, so do
 the loops here.
 */
module Migration {
  import opened Wrappers
  import opened Catalogue
  import opened Texts

  datatype LegacyTorrent = LegacyTorrent(infoHash: string, magnetURI: string, resultId: string, deleteFileId: string,
                                         workDirId: string, createdAt: int, updatedAt: int, latest: Option<nat>)

  datatype LegacyJob = LegacyJob(infoHash: string, magnetURI: string, state: JobState, error: string,
                                 createdAt: int, startedAt: Option<int>, finishedAt: Option<int>)

  datatype LegacyTask = LegacyTask(torrent: nat, gid: string, source: string, magnetURI: string, state: JobState,
                                   error: string, resultId: string, deleteFileId: string, workDirId: string,
                                   createdAt: int, startedAt: Option<int>, finishedAt: Option<int>)

  datatype NewArtifact = NewArtifact(torrent: nat, createdBy: Option<nat>, resultId: string, deleteFileId: string,
                                     workDirId: string, verifiedAt: Option<int>, createdAt: int, updatedAt: int)

  datatype LegacyLocation = LegacyLocation(torrent: Option<nat>, provider: string, managed: bool, live: bool,
                                           root: string, artifact: Option<nat>)

  datatype Store = Store(
    version: nat,
    hasTables: bool,
    torrents: map<nat, LegacyTorrent>,
    jobs: map<string, LegacyJob>,
    tasks: map<nat, LegacyTask>,
    artifacts: map<nat, NewArtifact>,
    locations: map<nat, LegacyLocation>)

  datatype UpgradeError = UnsupportedVersion | DanglingReference | SharedTask | DuplicateActiveTask

  /** The UNIQUE constraint of info_hash. */
  ghost predicate HashesDiffer(torrents: map<nat, LegacyTorrent>) {
    forall t, u | t in torrents && u in torrents && t != u :: torrents[t].infoHash != torrents[u].infoHash
  }

  /** A location names a torrent that is not there. */
  predicate Dangles(torrents: set<nat>, locations: map<nat, LegacyLocation>) {
    exists l | l in locations :: locations[l].torrent.Some? && locations[l].torrent.value !in torrents
  }

  // ----- Version 9 to 10 -----

  function GroupOf(jobs: map<string, LegacyJob>, hash: string): set<string> {
    set g | g in jobs && Lower(jobs[g].infoHash) == hash
  }

  function Hashes(torrents: map<nat, LegacyTorrent>): set<string> {
    set t | t in torrents :: torrents[t].infoHash
  }

  /** The hashes of jobs that no torrent has. */
  function MissingHashes(torrents: map<nat, LegacyTorrent>, jobs: map<string, LegacyJob>): set<string> {
    set g | g in jobs && Lower(jobs[g].infoHash) !in Hashes(torrents) :: Lower(jobs[g].infoHash)
  }

  /** The ids of so many rows inserted after those in use. */
  function Following(used: set<nat>, count: nat): (ids: set<nat>)
    ensures forall id :: id in ids <==> NextId(used) <= id < NextId(used) + count
  {
    if count == 0 then {} else Following(used, count - 1) + {NextId(used) + count - 1}
  }

  /** What the aggregates make of a group of jobs: the largest magnet, the first and the last time. */
  ghost predicate Aggregates(jobs: map<string, LegacyJob>, group: set<string>, row: LegacyTorrent) {
    && group <= jobs.Keys
    && (exists g | g in group :: jobs[g].magnetURI == row.magnetURI)
    && (exists g | g in group :: jobs[g].createdAt == row.createdAt)
    && (exists g | g in group :: jobs[g].createdAt == row.updatedAt)
    && (forall g | g in group ::
          AtMost(jobs[g].magnetURI, row.magnetURI) && row.createdAt <= jobs[g].createdAt <= row.updatedAt)
    && row == LegacyTorrent(row.infoHash, row.magnetURI, "", "", "", row.createdAt, row.updatedAt, None)
  }

  /** One torrent for each of the hashes, under the ids that follow. */
  ghost predicate SomeAdded(before: map<nat, LegacyTorrent>, jobs: map<string, LegacyJob>,
                            after: map<nat, LegacyTorrent>, hashes: set<string>) {
    && after.Keys == before.Keys + Following(before.Keys, |hashes|)
    && (forall t | t in before :: after[t] == before[t])
    && (forall t | t in after && t !in before :: after[t].infoHash in hashes && IsAggregate(jobs, after[t]))
    && HashesDiffer(after) && HaveHashes(after, hashes)
  }

  ghost predicate HaveHashes(torrents: map<nat, LegacyTorrent>, hashes: set<string>) {
    forall h | h in hashes :: exists t | t in torrents :: torrents[t].infoHash == h
  }

  ghost predicate IsAggregate(jobs: map<string, LegacyJob>, row: LegacyTorrent) {
    Aggregates(jobs, GroupOf(jobs, row.infoHash), row)
  }

  ghost predicate TorrentsAdded(before: map<nat, LegacyTorrent>, jobs: map<string, LegacyJob>,
                                after: map<nat, LegacyTorrent>) {
    SomeAdded(before, jobs, after, MissingHashes(before, jobs))
  }

  predicate Matches(jobs: map<string, LegacyJob>, torrents: map<nat, LegacyTorrent>, gid: string, t: nat) {
    gid in jobs && t in torrents && torrents[t].infoHash == Lower(jobs[gid].infoHash)
  }

  /** The task row of a job: the job's own columns, and the result columns of its torrent. */
  function TaskOf(jobs: map<string, LegacyJob>, torrents: map<nat, LegacyTorrent>, gid: string, t: nat): LegacyTask
    requires gid in jobs && t in torrents
  {
    var job, row := jobs[gid], torrents[t];
    LegacyTask(t, gid, "legacy", job.magnetURI, job.state, job.error,
               row.resultId, row.deleteFileId, row.workDirId, job.createdAt, job.startedAt, job.finishedAt)
  }

  ghost predicate IsTask(jobs: map<string, LegacyJob>, torrents: map<nat, LegacyTorrent>, task: LegacyTask) {
    Matches(jobs, torrents, task.gid, task.torrent) && task == TaskOf(jobs, torrents, task.gid, task.torrent)
  }

  /** Exactly one task per job. */
  ghost predicate TasksAdded(jobs: map<string, LegacyJob>, torrents: map<nat, LegacyTorrent>,
                             tasks: map<nat, LegacyTask>) {
    && (forall id | id in tasks :: IsTask(jobs, torrents, tasks[id]))
    && (forall g | g in jobs :: exists id | id in tasks :: tasks[id].gid == g)
    && (forall i, j | i in tasks && j in tasks && i != j :: tasks[i].gid != tasks[j].gid)
  }

  function EndOf(task: LegacyTask): int {
    if task.finishedAt.Some? then task.finishedAt.value else task.createdAt
  }

  /** No later end, and at the same end no larger id. */
  predicate NotAfter(tasks: map<nat, LegacyTask>, i: nat, j: nat)
    requires i in tasks && j in tasks
  {
    EndOf(tasks[i]) < EndOf(tasks[j]) || (EndOf(tasks[i]) == EndOf(tasks[j]) && i <= j)
  }

  predicate Succeeds(tasks: map<nat, LegacyTask>, id: nat, t: nat) {
    id in tasks && tasks[id].torrent == t && tasks[id].state == Succeeded
  }

  ghost predicate IsLatest(tasks: map<nat, LegacyTask>, among: set<nat>, t: nat, latest: Option<nat>) {
    match latest
    case None => forall id | id in among :: !Succeeds(tasks, id, t)
    case Some(best) =>
      && best in among && Succeeds(tasks, best, t)
      && forall id | id in among && Succeeds(tasks, id, t) :: NotAfter(tasks, id, best)
  }

  function WithLatest(row: LegacyTorrent, latest: Option<nat>): LegacyTorrent {
    row.(resultId := "", deleteFileId := "", workDirId := "", latest := latest)
  }

  /** The torrents of version 10: the last successful task instead of the result columns. */
  ghost predicate LatestSet(before: map<nat, LegacyTorrent>, tasks: map<nat, LegacyTask>,
                            after: map<nat, LegacyTorrent>) {
    && after.Keys == before.Keys
    && forall t | t in after ::
         after[t] == WithLatest(before[t], after[t].latest) && IsLatest(tasks, tasks.Keys, t, after[t].latest)
  }

  /** A location names neither a torrent nor an id that a new torrent gets. */
  predicate NineDangles(s: Store) {
    Dangles(s.torrents.Keys + Following(s.torrents.Keys, |MissingHashes(s.torrents, s.jobs)|), s.locations)
  }

  ghost predicate NineToTen(s: Store, s': Store) {
    exists middle ::
      && TorrentsAdded(s.torrents, s.jobs, middle)
      && TasksAdded(s.jobs, middle, s'.tasks)
      && LatestSet(middle, s'.tasks, s'.torrents)
      && s' == s.(version := 10, torrents := s'.torrents, jobs := map[], tasks := s'.tasks)
  }

  // ----- Version 10 to 11 -----

  /** The task that the first INSERT joins to a torrent. */
  function LastTask(s: Store, t: nat): Option<nat>
    requires t in s.torrents
  {
    if s.torrents[t].latest.Some? && s.torrents[t].latest.value in s.tasks then s.torrents[t].latest else None
  }

  function ArtifactOf(tasks: map<nat, LegacyTask>, t: nat, id: nat): NewArtifact
    requires id in tasks
  {
    var task := tasks[id];
    NewArtifact(t, Some(id), task.resultId, task.deleteFileId, task.workDirId,
                Some(EndOf(task)), task.createdAt, EndOf(task))
  }

  function HeldRoots(s: Store): set<(nat, string)> {
    set l | l in s.locations && s.locations[l].managed && s.locations[l].live && s.locations[l].torrent.Some?
            && s.locations[l].torrent.value in s.torrents && LastTask(s, s.locations[l].torrent.value).None? ::
      (s.locations[l].torrent.value, s.locations[l].root)
  }

  function ArtifactOfRoot(torrents: map<nat, LegacyTorrent>, pair: (nat, string)): NewArtifact
    requires pair.0 in torrents
  {
    NewArtifact(pair.0, None, "", "", pair.1, None, torrents[pair.0].createdAt, torrents[pair.0].updatedAt)
  }

  function RootOf(a: NewArtifact): (nat, string) {
    (a.torrent, a.workDirId)
  }

  ghost predicate IsArtifact(s: Store, a: NewArtifact) {
    && a.torrent in s.torrents
    && match LastTask(s, a.torrent)
       case Some(id) => a == ArtifactOf(s.tasks, a.torrent, id)
       case None => RootOf(a) in HeldRoots(s) && a == ArtifactOfRoot(s.torrents, RootOf(a))
  }

  /** One artifact per torrent with a last successful task, one per held root of any other torrent. */
  ghost predicate ArtifactsAdded(s: Store, artifacts: map<nat, NewArtifact>) {
    && (forall a | a in artifacts :: IsArtifact(s, artifacts[a]))
    && (forall t | t in s.torrents && LastTask(s, t).Some? :: exists a | a in artifacts :: artifacts[a].torrent == t)
    && (forall pair | pair in HeldRoots(s) :: exists a | a in artifacts :: RootOf(artifacts[a]) == pair)
    && (forall a, b | a in artifacts && b in artifacts && a != b ::
          artifacts[a].torrent != artifacts[b].torrent
          || (artifacts[a].createdBy.None? && artifacts[a].workDirId != artifacts[b].workDirId))
  }

  /** The artifacts of the first INSERT: one per torrent with a last successful task. */
  ghost predicate FromTasks(s: Store, artifacts: map<nat, NewArtifact>, at: map<nat, nat>) {
    && (forall t | t in at :: t in s.torrents && LastTask(s, t).Some? && at[t] in artifacts
                              && artifacts[at[t]] == ArtifactOf(s.tasks, t, LastTask(s, t).value))
    && (forall a | a in artifacts :: artifacts[a].torrent in at && at[artifacts[a].torrent] == a)
  }

  /** The artifacts of the second INSERT are those after the first one's. */
  ghost predicate FromRoots(torrents: map<nat, LegacyTorrent>, base: map<nat, NewArtifact>,
                            artifacts: map<nat, NewArtifact>, at: map<(nat, string), nat>) {
    && (forall a | a in base :: a in artifacts && artifacts[a] == base[a])
    && (forall p | p in at :: p.0 in torrents && at[p] in artifacts && at[p] !in base
                              && artifacts[at[p]] == ArtifactOfRoot(torrents, p))
    && (forall a | a in artifacts && a !in base :: RootOf(artifacts[a]) in at && at[RootOf(artifacts[a])] == a)
  }

  lemma FromTasksEmpty(s: Store)
    ensures FromTasks(s, map[], map[])
  {
  }

  lemma FromRootsEmpty(torrents: map<nat, LegacyTorrent>, base: map<nat, NewArtifact>)
    ensures FromRoots(torrents, base, base, map[])
  {
  }

  lemma TaskArtifactStep(s: Store, artifacts: map<nat, NewArtifact>, at: map<nat, nat>, t: nat, id: nat)
    requires FromTasks(s, artifacts, at) && id !in artifacts && t !in at
    requires t in s.torrents && LastTask(s, t).Some?
    ensures FromTasks(s, artifacts[id := ArtifactOf(s.tasks, t, LastTask(s, t).value)], at[t := id])
  {
  }

  lemma RootArtifactStep(torrents: map<nat, LegacyTorrent>, base: map<nat, NewArtifact>,
                         artifacts: map<nat, NewArtifact>, at: map<(nat, string), nat>, p: (nat, string), id: nat)
    requires FromRoots(torrents, base, artifacts, at) && id !in artifacts && p !in at && p.0 in torrents
    ensures FromRoots(torrents, base, artifacts[id := ArtifactOfRoot(torrents, p)], at[p := id])
  {
    assert RootOf(ArtifactOfRoot(torrents, p)) == p;
    hide ArtifactOfRoot, RootOf;
  }

  lemma AllArtifactsAdded(s: Store, base: map<nat, NewArtifact>, at: map<nat, nat>,
                          artifacts: map<nat, NewArtifact>, at': map<(nat, string), nat>)
    requires FromTasks(s, base, at) && FromRoots(s.torrents, base, artifacts, at')
    requires at.Keys == WithTask(s) && at'.Keys == HeldRoots(s)
    ensures ArtifactsAdded(s, artifacts)
  {
    HeldRootsHaveNoTask(s);
    hide HeldRoots;
    forall t | t in s.torrents && LastTask(s, t).Some? ensures exists a | a in artifacts :: artifacts[a].torrent == t {
      assert t in at && artifacts[at[t]].torrent == t;
    }
    hide LastTask, ArtifactOf;
    forall p | p in at' ensures exists a | a in artifacts :: RootOf(artifacts[a]) == p {
      assert RootOf(artifacts[at'[p]]) == p;
    }
    AllAreArtifacts(s, base, at, artifacts, at');
    hide IsArtifact;
  }

  lemma AllAreArtifacts(s: Store, base: map<nat, NewArtifact>, at: map<nat, nat>,
                        artifacts: map<nat, NewArtifact>, at': map<(nat, string), nat>)
    requires FromTasks(s, base, at) && FromRoots(s.torrents, base, artifacts, at') && at'.Keys == HeldRoots(s)
    requires forall p | p in HeldRoots(s) :: p.0 in s.torrents && LastTask(s, p.0).None?
    ensures forall a | a in artifacts :: IsArtifact(s, artifacts[a])
    ensures forall a | a in artifacts :: a !in base <==> artifacts[a].createdBy.None?
    ensures forall a, b | a in artifacts && b in artifacts && a in base && b !in base ::
              artifacts[a].torrent != artifacts[b].torrent
  {
    hide HeldRoots, LastTask;
    forall a | a in artifacts ensures IsArtifact(s, artifacts[a]) {
      if a !in base {
        assert RootOf(artifacts[a]) in at';
      }
    }
  }

  lemma HeldRootsHaveNoTask(s: Store)
    ensures forall p | p in HeldRoots(s) :: p.0 in s.torrents && LastTask(s, p.0).None?
  {
  }

  function WithTask(s: Store): set<nat> {
    set t | t in s.torrents && LastTask(s, t).Some?
  }

  function ArtifactsOf(artifacts: map<nat, NewArtifact>, l: LegacyLocation): set<nat> {
    set a | a in artifacts && l.torrent == Some(artifacts[a].torrent) && l.provider == "p115"
  }

  function Attached(artifacts: map<nat, NewArtifact>, l: LegacyLocation): LegacyLocation {
    var own := ArtifactsOf(artifacts, l);
    l.(root := "", artifact := if !l.managed || own == {} then None else Some(Maximum(own)))
  }

  /** Two torrents with one last successful task, which created_by_task_id does not admit. */
  ghost predicate SharesTask(s: Store) {
    exists t, u | t in s.torrents && u in s.torrents ::
      t != u && LastTask(s, t).Some? && LastTask(s, t) == LastTask(s, u)
  }

  /** Two active tasks of one source and torrent, which the new unique index forbids. */
  predicate Clash(tasks: map<nat, LegacyTask>) {
    exists i, j | i in tasks && j in tasks ::
      i != j && IsActive(tasks[i].state) && IsActive(tasks[j].state)
      && tasks[i].source == tasks[j].source && tasks[i].torrent == tasks[j].torrent
  }

  predicate TaskDangles(torrents: set<nat>, tasks: map<nat, LegacyTask>) {
    exists id | id in tasks :: tasks[id].torrent !in torrents
  }

  /** What the foreign key check finds after the last step. */
  predicate TenDangles(s: Store) {
    Dangles(s.torrents.Keys, s.locations) || TaskDangles(s.torrents.Keys, s.tasks)
  }

  function AllAttached(artifacts: map<nat, NewArtifact>, locations: map<nat, LegacyLocation>):
    map<nat, LegacyLocation>
  {
    map l | l in locations :: Attached(artifacts, locations[l])
  }

  function WithoutResults(tasks: map<nat, LegacyTask>): map<nat, LegacyTask> {
    map id | id in tasks :: tasks[id].(resultId := "", deleteFileId := "", workDirId := "")
  }

  function WithoutLatest(torrents: map<nat, LegacyTorrent>): map<nat, LegacyTorrent> {
    map t | t in torrents :: torrents[t].(latest := None)
  }

  ghost predicate TenToEleven(s: Store, s': Store) {
    && ArtifactsAdded(s, s'.artifacts)
    && s'.locations == AllAttached(s'.artifacts, s.locations)
    && s'.tasks == WithoutResults(s.tasks)
    && s'.torrents == WithoutLatest(s.torrents)
    && s'.version == 11 && s'.jobs == s.jobs && s'.hasTables == s.hasTables
  }

  ghost function TenError(s: Store): Option<UpgradeError> {
    if SharesTask(s) then Some(SharedTask)
    else if Clash(s.tasks) then Some(DuplicateActiveTask)
    else if TenDangles(s) then Some(DanglingReference)
    else None
  }

  ghost predicate FromTen(s: Store, s': Store, done: Result<(), UpgradeError>) {
    match TenError(s)
    case Some(e) => done == Err(e) && s' == s
    case None => done == Ok(()) && TenToEleven(s, s')
  }

  ghost predicate FromNine(s: Store, s': Store, done: Result<(), UpgradeError>) {
    if NineDangles(s) then done == Err(DanglingReference) && s' == s
    else exists ten :: NineToTen(s, ten) && !SharesTask(ten) && !TenDangles(ten) && FromTen(ten, s', done)
  }

  /** Version 8 only lacks the categories, which are not part of this model. */
  ghost predicate FromEight(s: Store, s': Store, done: Result<(), UpgradeError>) {
    if Dangles(s.torrents.Keys, s.locations) then done == Err(DanglingReference) && s' == s
    else FromNine(s.(version := 9), s', done)
  }

  ghost predicate Initialized(s: Store, s': Store, done: Result<(), UpgradeError>) {
    if s.version > 11 then done == Err(UnsupportedVersion) && s' == s
    else if !s.hasTables then done == Ok(()) && s' == s.(version := 11, hasTables := true)
    else if s.version < 8 then done == Err(UnsupportedVersion) && s' == s
    else if s.version == 8 then FromEight(s, s', done)
    else if s.version == 9 then FromNine(s, s', done)
    else if s.version == 10 then FromTen(s, s', done)
    else done == Ok(()) && s' == s
  }

  // ----- The database -----

  class Database {
    var version: nat
    var hasTables: bool
    var torrents: map<nat, LegacyTorrent>
    var jobs: map<string, LegacyJob>
    var tasks: map<nat, LegacyTask>
    var artifacts: map<nat, NewArtifact>
    var locations: map<nat, LegacyLocation>

    ghost function View(): Store
      reads this
    {
      Store(version, hasTables, torrents, jobs, tasks, artifacts, locations)
    }

    constructor (s: Store)
      ensures View() == s
    {
      version, hasTables, torrents, jobs, tasks := s.version, s.hasTables, s.torrents, s.jobs, s.tasks;
      artifacts, locations := s.artifacts, s.locations;
    }

    /** GROUP BY with max and min over one group. */
    method Aggregate(hash: string, group: set<string>) returns (row: LegacyTorrent)
      requires group != {} && group <= jobs.Keys
      ensures Aggregates(jobs, group, row) && row.infoHash == hash
    {
      var first :| first in group;
      row := LegacyTorrent(hash, jobs[first].magnetURI, "", "", "", jobs[first].createdAt, jobs[first].createdAt, None);
      AtMostTotal(jobs[first].magnetURI, jobs[first].magnetURI);
      var left := group - {first};
      while left != {}
        invariant left <= group && Aggregates(jobs, group - left, row) && row.infoHash == hash
        decreases |left|
      {
        var g :| g in left;
        var next := Enlarge(row, jobs[g]);
        EnlargedAggregates(jobs, group - left, row, g);
        assert group - (left - {g}) == group - left + {g};
        row := next;
        left := left - {g};
      }
      assert group - left == group;
    }

    method AddTorrents()
      requires HashesDiffer(torrents)
      modifies this`torrents
      ensures TorrentsAdded(old(torrents), jobs, torrents)
    {
      ghost var before, added := torrents, {};
      var left := MissingHashes(torrents, jobs);
      hide MissingHashes, SomeAdded, NextId, Aggregates, GroupOf, HashesDiffer, Lower;
      SomeAddedNone(before, jobs);
      while left != {}
        invariant added + left == MissingHashes(before, jobs) && added !! left
        invariant SomeAdded(before, jobs, torrents, added)
        decreases |left|
      {
        var h :| h in left;
        left := left - {h};
        MissingHasGroup(before, jobs, h);
        var row := Aggregate(h, GroupOf(jobs, h));
        var id := NextId(torrents.Keys);
        SomeAddedStep(before, jobs, torrents, added, id, row);
        torrents := torrents[id := row];
        added := added + {h};
      }
      assert added == added + left;
    }

    method AddTasks()
      requires tasks == map[] && HashesDiffer(torrents)
      requires forall g | g in jobs :: exists t | t in torrents :: Matches(jobs, torrents, g, t)
      modifies this`tasks
      ensures TasksAdded(jobs, torrents, tasks)
    {
      hide TaskOf, Lower, NextId, Matches, TasksFor, TasksAdded, HashesDiffer;
      var left := jobs.Keys;
      ghost var at: map<string, nat> := map[];
      NoTasks(jobs, torrents);
      while left != {}
        invariant left <= jobs.Keys && at.Keys == jobs.Keys - left && TasksFor(jobs, torrents, tasks, at)
        decreases |left|
      {
        var g :| g in left;
        left := left - {g};
        var t :| t in torrents && Matches(jobs, torrents, g, t);
        var id := NextId(tasks.Keys);
        TaskStep(jobs, torrents, tasks, at, g, t, id);
        tasks := tasks[id := TaskOf(jobs, torrents, g, t)];
        at := at[g := id];
      }
      AllTasks(jobs, torrents, tasks, at);
    }

    method LatestOf(t: nat) returns (latest: Option<nat>)
      ensures IsLatest(tasks, tasks.Keys, t, latest)
    {
      latest := None;
      var left := tasks.Keys;
      while left != {}
        invariant left <= tasks.Keys && IsLatest(tasks, tasks.Keys - left, t, latest)
        decreases |left|
      {
        var id :| id in left;
        left := left - {id};
        if Succeeds(tasks, id, t) && (latest.None? || NotAfter(tasks, latest.value, id)) {
          latest := Some(id);
        }
      }
      assert tasks.Keys - left == tasks.Keys;
    }

    /** UPDATE torrents and drop the result columns. */
    method SetLatest()
      modifies this`torrents
      ensures LatestSet(old(torrents), tasks, torrents)
    {
      ghost var before := torrents;
      var left := torrents.Keys;
      while left != {}
        invariant left <= torrents.Keys == before.Keys
        invariant forall t | t in left :: torrents[t] == before[t]
        invariant forall t | t in torrents.Keys - left ::
                    && torrents[t] == WithLatest(before[t], torrents[t].latest)
                    && IsLatest(tasks, tasks.Keys, t, torrents[t].latest)
        decreases |left|
      {
        var t :| t in left;
        left := left - {t};
        var latest := LatestOf(t);
        torrents := torrents[t := WithLatest(torrents[t], latest)];
      }
    }

    method MigrateNine() returns (done: Result<(), UpgradeError>)
      requires version == 9 && tasks == map[] && HashesDiffer(torrents)
      modifies this
      ensures if NineDangles(old(View())) then done == Err(DanglingReference) && View() == old(View())
              else done == Ok(()) && NineToTen(old(View()), View()) && version == 10
      ensures artifacts == old(artifacts)
    {
      hide TorrentsAdded, TasksAdded, LatestSet, NineDangles, Dangles, HashesDiffer, Matches;
      ghost var start := View();
      var oldTorrents := torrents;
      AddTorrents();
      ghost var middle := torrents;
      JobsHaveTorrents(start, middle);
      AddTasks();
      SetLatest();
      SameKeys(middle, tasks, torrents);
      DanglingStays(start, middle);
      if Dangles(torrents.Keys, locations) {
        torrents, tasks := oldTorrents, map[];
        return Err(DanglingReference);
      }
      jobs := map[];
      version := 10;
      NineToTenBy(start, middle, View());
      done := Ok(());
    }

    /** The first INSERT, which stops at a task that another torrent has taken. */
    method AddTaskArtifacts() returns (ok: bool, ghost at: map<nat, nat>)
      requires artifacts == map[]
      modifies this`artifacts
      ensures ok <==> !SharesTask(old(View()))
      ensures ok ==> FromTasks(old(View()), artifacts, at) && at.Keys == WithTask(old(View()))
    {
      ghost var start := View();
      FromTasksEmpty(start);
      var left := set t | t in torrents && torrents[t].latest.Some? && torrents[t].latest.value in tasks;
      ghost var all := left;
      assert all == WithTask(start);
      at := map[];
      hide NextId, FromTasks, UniqueCreators, SharesTask, EndOf, Taken;
      assert UniqueCreators(artifacts) by { NoCreators(); }
      while left != {}
        invariant left <= all && at.Keys == all - left && FromTasks(start, artifacts, at)
        invariant UniqueCreators(artifacts)
        decreases |left|
      {
        var t :| t in left;
        left := left - {t};
        var id, task := NextId(artifacts.Keys), torrents[t].latest.value;
        if Taken(artifacts, task) {
          TakenIsShared(start, artifacts, at, t);
          return false, at;
        }
        TaskArtifactStep(start, artifacts, at, t, id);
        CreatorsStep(artifacts, id, ArtifactOf(tasks, t, task), task);
        artifacts := artifacts[id := ArtifactOf(tasks, t, task)];
        at := at[t := id];
      }
      NoneShared(start, artifacts, at);
      ok := true;
    }

    method AddRootArtifacts(ghost start: Store, ghost at: map<nat, nat>) returns (ghost at': map<(nat, string), nat>)
      requires View() == start.(artifacts := artifacts)
      requires FromTasks(start, artifacts, at) && at.Keys == WithTask(start)
      modifies this`artifacts
      ensures FromRoots(torrents, old(artifacts), artifacts, at') && at'.Keys == HeldRoots(start)
    {
      hide NextId, FromTasks, FromRoots, HeldRoots, LooseRoots, WithTask, LastTask;
      ghost var base := artifacts;
      HeldRootsHaveNoTask(start);
      FromRootsEmpty(torrents, base);
      LooseRootsAreHeld(start, base, at);
      var left := LooseRoots(artifacts, torrents, locations);
      at' := map[];
      while left != {}
        invariant left <= HeldRoots(start) && at'.Keys == HeldRoots(start) - left
        invariant FromRoots(torrents, base, artifacts, at')
        decreases |left|
      {
        var p :| p in left;
        left := left - {p};
        var id := NextId(artifacts.Keys);
        RootArtifactStep(torrents, base, artifacts, at', p, id);
        artifacts := artifacts[id := ArtifactOfRoot(torrents, p)];
        at' := at'[p := id];
      }
    }

    method MigrateTen() returns (done: Result<(), UpgradeError>)
      requires version == 10 && artifacts == map[]
      modifies this
      ensures FromTen(old(View()), View(), done)
    {
      hide ArtifactsAdded, SharesTask, Clash, Dangles, TaskDangles, FromTasks, FromRoots, HeldRoots, WithTask,
           TenToEleven;
      ghost var start := View();
      var ok, at := AddTaskArtifacts();
      if !ok {
        artifacts := map[];
        return Err(SharedTask);
      }
      ghost var base := artifacts;
      ghost var at' := AddRootArtifacts(start, at);
      AllArtifactsAdded(start, base, at, artifacts, at');
      if Clash(tasks) || Dangles(torrents.Keys, locations) || TaskDangles(torrents.Keys, tasks) {
        artifacts := map[];
        return Err(if Clash(tasks) then DuplicateActiveTask else DanglingReference);
      }
      FinishTen(start);
      done := Ok(());
    }

    method FinishTen(ghost start: Store)
      requires View() == start.(artifacts := artifacts) && ArtifactsAdded(start, artifacts)
      modifies this
      ensures TenToEleven(start, View())
    {
      hide ArtifactsAdded, AllAttached, WithoutResults, WithoutLatest;
      locations, tasks, torrents := AllAttached(artifacts, locations), WithoutResults(tasks), WithoutLatest(torrents);
      version := 11;
    }

    /** The loop over versions; every step is a transaction of its own that ends with the foreign key check. */
    method Initialize() returns (done: Result<(), UpgradeError>)
      requires version <= 9 ==> tasks == map[]
      requires version <= 10 ==> artifacts == map[]
      requires HashesDiffer(torrents)
      modifies this
      ensures Initialized(old(View()), View(), done)
    {
      hide NineToTen, TenToEleven, NineDangles, Dangles, SharesTask, Clash, TenDangles, HashesDiffer;
      done := Ok(());
      if version > 11 {
        return Err(UnsupportedVersion);
      }
      if !hasTables {
        version, hasTables := 11, true;
        return;
      }
      if version < 8 {
        return Err(UnsupportedVersion);
      }
      if version == 8 {
        if Dangles(torrents.Keys, locations) {
          return Err(DanglingReference);
        }
        version := 9;
      }
      ghost var nine := View();
      if version == 9 {
        done := MigrateNine();
        if done.Err? {
          return;
        }
        TenAfterNine(nine, View());
      }
      ghost var ten := View();
      if version == 10 {
        done := MigrateTen();
        assert FromTen(ten, View(), done);
      }
    }
  }

  lemma FollowingGrows(used: set<nat>, count: nat)
    ensures NextId(used + Following(used, count)) == NextId(used) + count
    ensures Following(used, count) + {NextId(used) + count} == Following(used, count + 1)
  {
    var all := used + Following(used, count);
    if count > 0 {
      assert NextId(used) + count - 1 in Following(used, count);
      assert NextId(used) + count - 1 in all;
    } else {
      assert all == used;
    }
  }

  lemma SomeAddedNone(before: map<nat, LegacyTorrent>, jobs: map<string, LegacyJob>)
    requires HashesDiffer(before)
    ensures SomeAdded(before, jobs, before, {})
  {
  }

  lemma SomeAddedStep(before: map<nat, LegacyTorrent>, jobs: map<string, LegacyJob>, after: map<nat, LegacyTorrent>,
                      hashes: set<string>, id: nat, row: LegacyTorrent)
    requires SomeAdded(before, jobs, after, hashes) && hashes <= MissingHashes(before, jobs)
    requires id == NextId(after.Keys) && row.infoHash in MissingHashes(before, jobs) - hashes
    requires IsAggregate(jobs, row)
    ensures SomeAdded(before, jobs, after[id := row], hashes + {row.infoHash})
  {
    hide MissingHashes, Following, NextId, IsAggregate, HashesDiffer, HaveHashes;
    MissingHasGroup(before, jobs, row.infoHash);
    KeysAdded(before.Keys, after.Keys, hashes, id, row.infoHash);
    assert after[id := row].Keys == after.Keys + {id};
    HashAdded(after, hashes, id, row);
  }

  lemma KeysAdded(before: set<nat>, after: set<nat>, hashes: set<string>, id: nat, h: string)
    requires after == before + Following(before, |hashes|) && id == NextId(after) && h !in hashes
    ensures id !in after && after + {id} == before + Following(before, |hashes + {h}|)
  {
    FollowingGrows(before, |hashes|);
    hide Following, NextId;
    OneMoreHash(hashes, h);
    var some := Following(before, |hashes|);
    assert before + some + {id} == before + (some + {id});
  }

  lemma OneMoreHash(hashes: set<string>, h: string)
    requires h !in hashes
    ensures |hashes + {h}| == |hashes| + 1
  {
    assert hashes * {h} == {};
  }

  lemma HashAdded(torrents: map<nat, LegacyTorrent>, hashes: set<string>, id: nat, row: LegacyTorrent)
    requires id !in torrents && HashesDiffer(torrents) && HaveHashes(torrents, hashes)
    requires forall t | t in torrents :: torrents[t].infoHash != row.infoHash
    ensures HashesDiffer(torrents[id := row]) && HaveHashes(torrents[id := row], hashes + {row.infoHash})
  {
    var after := torrents[id := row];
    forall h | h in hashes + {row.infoHash} ensures exists t | t in after :: after[t].infoHash == h {
      if h == row.infoHash {
        assert after[id].infoHash == h;
      } else {
        var t :| t in torrents && torrents[t].infoHash == h;
        assert after[t].infoHash == h;
      }
    }
  }

  lemma MissingHasGroup(torrents: map<nat, LegacyTorrent>, jobs: map<string, LegacyJob>, h: string)
    requires h in MissingHashes(torrents, jobs)
    ensures GroupOf(jobs, h) != {} && GroupOf(jobs, h) <= jobs.Keys
    ensures forall t | t in torrents :: torrents[t].infoHash != h
  {
    var g :| g in jobs && Lower(jobs[g].infoHash) == h && h !in Hashes(torrents);
    assert g in GroupOf(jobs, h);
  }

  lemma JobsHaveTorrents(s: Store, middle: map<nat, LegacyTorrent>)
    requires TorrentsAdded(s.torrents, s.jobs, middle)
    ensures forall g | g in s.jobs :: exists t | t in middle :: Matches(s.jobs, middle, g, t)
    ensures HashesDiffer(middle)
  {
    forall g | g in s.jobs ensures exists t | t in middle :: Matches(s.jobs, middle, g, t) {
      var h := Lower(s.jobs[g].infoHash);
      hide IsAggregate, HashesDiffer, Lower;
      if h in Hashes(s.torrents) {
        var t :| t in s.torrents && s.torrents[t].infoHash == h;
        assert Matches(s.jobs, middle, g, t);
      } else {
        assert h in MissingHashes(s.torrents, s.jobs);
        var t :| t in middle && middle[t].infoHash == h;
        assert Matches(s.jobs, middle, g, t);
      }
    }
  }

  /** The tasks of some of the jobs, and under which id each one is. */
  ghost predicate TasksFor(jobs: map<string, LegacyJob>, torrents: map<nat, LegacyTorrent>, tasks: map<nat, LegacyTask>,
                           at: map<string, nat>) {
    && (forall g | g in at :: at[g] in tasks && tasks[at[g]].gid == g)
    && (forall id | id in tasks :: tasks[id].gid in at && at[tasks[id].gid] == id)
    && (forall id | id in tasks :: IsTask(jobs, torrents, tasks[id]))
  }

  lemma NoTasks(jobs: map<string, LegacyJob>, torrents: map<nat, LegacyTorrent>)
    ensures TasksFor(jobs, torrents, map[], map[])
  {
  }

  lemma TaskStep(jobs: map<string, LegacyJob>, torrents: map<nat, LegacyTorrent>, tasks: map<nat, LegacyTask>,
                 at: map<string, nat>, g: string, t: nat, id: nat)
    requires TasksFor(jobs, torrents, tasks, at) && Matches(jobs, torrents, g, t) && g !in at && id !in tasks
    ensures TasksFor(jobs, torrents, tasks[id := TaskOf(jobs, torrents, g, t)], at[g := id])
  {
    assert IsTask(jobs, torrents, TaskOf(jobs, torrents, g, t)) && TaskOf(jobs, torrents, g, t).gid == g;
    hide IsTask, TaskOf, Matches;
  }

  lemma AllTasks(jobs: map<string, LegacyJob>, torrents: map<nat, LegacyTorrent>, tasks: map<nat, LegacyTask>,
                 at: map<string, nat>)
    requires TasksFor(jobs, torrents, tasks, at) && at.Keys == jobs.Keys
    ensures TasksAdded(jobs, torrents, tasks)
  {
    hide IsTask;
    forall g | g in jobs ensures exists id | id in tasks :: tasks[id].gid == g {
      assert at[g] in tasks;
    }
  }

  lemma SameKeys(before: map<nat, LegacyTorrent>, tasks: map<nat, LegacyTask>, after: map<nat, LegacyTorrent>)
    requires LatestSet(before, tasks, after)
    ensures before.Keys == after.Keys
  {
  }

  lemma DanglingStays(s: Store, middle: map<nat, LegacyTorrent>)
    requires TorrentsAdded(s.torrents, s.jobs, middle)
    ensures NineDangles(s) <==> Dangles(middle.Keys, s.locations)
  {
  }

  lemma NineToTenBy(s: Store, middle: map<nat, LegacyTorrent>, s': Store)
    requires TorrentsAdded(s.torrents, s.jobs, middle)
    requires TasksAdded(s.jobs, middle, s'.tasks) && LatestSet(middle, s'.tasks, s'.torrents)
    requires s' == s.(version := 10, torrents := s'.torrents, jobs := map[], tasks := s'.tasks)
    ensures NineToTen(s, s')
  {
  }

  /** After the step to version 10 every last successful task belongs to its torrent, so no two share one. */
  lemma TenAfterNine(s: Store, ten: Store)
    requires NineToTen(s, ten) && !NineDangles(s)
    ensures !SharesTask(ten) && !TenDangles(ten)
    ensures forall t | t in ten.torrents :: LastTask(ten, t) == ten.torrents[t].latest
  {
    var middle :| TorrentsAdded(s.torrents, s.jobs, middle) && TasksAdded(s.jobs, middle, ten.tasks)
               && LatestSet(middle, ten.tasks, ten.torrents);
    DanglingStays(s, middle);
    SameKeys(middle, ten.tasks, ten.torrents);
    TasksHaveTorrents(s.jobs, middle, ten.tasks);
    LatestSucceeds(middle, ten.tasks, ten.torrents);
    hide TorrentsAdded, TasksAdded, LatestSet, Dangles, NineDangles, Succeeds;
    LatestDiffer(ten);
  }

  lemma LatestDiffer(s: Store)
    requires forall t | t in s.torrents && s.torrents[t].latest.Some? ::
               Succeeds(s.tasks, s.torrents[t].latest.value, t)
    ensures !SharesTask(s)
    ensures forall t | t in s.torrents :: LastTask(s, t) == s.torrents[t].latest
  {
  }

  lemma TasksHaveTorrents(jobs: map<string, LegacyJob>, torrents: map<nat, LegacyTorrent>, tasks: map<nat, LegacyTask>)
    requires TasksAdded(jobs, torrents, tasks)
    ensures forall id | id in tasks :: tasks[id].torrent in torrents
  {
  }

  lemma LatestSucceeds(before: map<nat, LegacyTorrent>, tasks: map<nat, LegacyTask>, after: map<nat, LegacyTorrent>)
    requires LatestSet(before, tasks, after)
    ensures forall t | t in after && after[t].latest.Some? :: Succeeds(tasks, after[t].latest.value, t)
  {
  }

  ghost predicate UniqueCreators(artifacts: map<nat, NewArtifact>) {
    forall a, b | a in artifacts && b in artifacts && a != b :: artifacts[a].createdBy != artifacts[b].createdBy
  }

  lemma NoCreators()
    ensures UniqueCreators(map[])
  {
  }

  predicate Taken(artifacts: map<nat, NewArtifact>, task: nat) {
    exists a | a in artifacts :: artifacts[a].createdBy == Some(task)
  }

  lemma CreatorsStep(artifacts: map<nat, NewArtifact>, id: nat, a: NewArtifact, task: nat)
    requires UniqueCreators(artifacts) && id !in artifacts && a.createdBy == Some(task) && !Taken(artifacts, task)
    ensures UniqueCreators(artifacts[id := a])
  {
  }

  lemma TakenIsShared(s: Store, artifacts: map<nat, NewArtifact>, at: map<nat, nat>, t: nat)
    requires FromTasks(s, artifacts, at) && t in s.torrents && t !in at && LastTask(s, t).Some?
    requires Taken(artifacts, LastTask(s, t).value)
    ensures SharesTask(s)
  {
    var a :| a in artifacts && artifacts[a].createdBy == LastTask(s, t);
    assert LastTask(s, artifacts[a].torrent) == LastTask(s, t);
  }

  lemma NoneShared(s: Store, artifacts: map<nat, NewArtifact>, at: map<nat, nat>)
    requires FromTasks(s, artifacts, at) && UniqueCreators(artifacts) && at.Keys == WithTask(s)
    ensures !SharesTask(s)
  {
    forall t, u | t in s.torrents && u in s.torrents && t != u && LastTask(s, t).Some? && LastTask(s, u).Some?
      ensures LastTask(s, t) != LastTask(s, u)
    {
      assert t in at && u in at;
      assert artifacts[at[t]].torrent == t && artifacts[at[u]].torrent == u;
    }
  }

  predicate HasArtifact(artifacts: map<nat, NewArtifact>, t: nat) {
    exists a | a in artifacts :: artifacts[a].torrent == t
  }

  /** The rows of the second SELECT. */
  function LooseRoots(artifacts: map<nat, NewArtifact>, torrents: map<nat, LegacyTorrent>,
                      locations: map<nat, LegacyLocation>): set<(nat, string)> {
    set l | l in locations && locations[l].managed && locations[l].live && locations[l].torrent.Some?
            && locations[l].torrent.value in torrents && !HasArtifact(artifacts, locations[l].torrent.value) ::
      (locations[l].torrent.value, locations[l].root)
  }

  lemma LooseRootsAreHeld(s: Store, base: map<nat, NewArtifact>, at: map<nat, nat>)
    requires FromTasks(s, base, at) && at.Keys == WithTask(s)
    ensures LooseRoots(base, s.torrents, s.locations) == HeldRoots(s)
  {
    forall t | t in s.torrents ensures HasArtifact(base, t) <==> LastTask(s, t).Some? {
      if LastTask(s, t).Some? {
        assert t in at && base[at[t]].torrent == t;
      }
    }
    hide FromTasks, HasArtifact, LastTask, WithTask;
  }

  function Enlarge(row: LegacyTorrent, job: LegacyJob): LegacyTorrent {
    row.(magnetURI := if AtMost(row.magnetURI, job.magnetURI) then job.magnetURI else row.magnetURI,
         createdAt := if job.createdAt < row.createdAt then job.createdAt else row.createdAt,
         updatedAt := if job.createdAt > row.updatedAt then job.createdAt else row.updatedAt)
  }

  lemma EnlargedAggregates(jobs: map<string, LegacyJob>, group: set<string>, row: LegacyTorrent, g: string)
    requires Aggregates(jobs, group, row) && g in jobs
    ensures Aggregates(jobs, group + {g}, Enlarge(row, jobs[g]))
  {
    var next := Enlarge(row, jobs[g]);
    AtMostTotal(row.magnetURI, jobs[g].magnetURI);
    AtMostTotal(next.magnetURI, next.magnetURI);
    forall k | k in group + {g} ensures AtMost(jobs[k].magnetURI, next.magnetURI) {
      if k in group && AtMost(row.magnetURI, jobs[g].magnetURI) {
        AtMostTransitive(jobs[k].magnetURI, row.magnetURI, jobs[g].magnetURI);
      }
    }
    var m :| m in group && jobs[m].magnetURI == row.magnetURI;
    var c :| c in group && jobs[c].createdAt == row.createdAt;
    var u :| u in group && jobs[u].createdAt == row.updatedAt;
    assert m in group + {g} && c in group + {g} && u in group + {g} && g in group + {g};
  }
}
