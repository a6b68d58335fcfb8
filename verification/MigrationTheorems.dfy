/** What an upgrade from version 9 to 11 keeps of the meaning of a database. */
module MigrationTheorems {
  import opened Texts
  import opened Wrappers
  import opened Catalogue
  import opened Migration

  /** Both steps, with the tables between them. */
  ghost predicate Upgraded(s: Store, middle: map<nat, LegacyTorrent>, ten: Store, s': Store) {
    && TorrentsAdded(s.torrents, s.jobs, middle)
    && TasksAdded(s.jobs, middle, ten.tasks)
    && LatestSet(middle, ten.tasks, ten.torrents)
    && ten == s.(version := 10, torrents := ten.torrents, jobs := map[], tasks := ten.tasks)
    && TenToEleven(ten, s')
    && (forall t | t in ten.torrents :: LastTask(ten, t) == ten.torrents[t].latest)
    && !Dangles(ten.torrents.Keys, ten.locations)
  }

  lemma UpgradeHasMiddle(s: Store, s': Store) returns (middle: map<nat, LegacyTorrent>, ten: Store)
    requires s.version == 9 && s.hasTables && Initialized(s, s', Ok(()))
    ensures Upgraded(s, middle, ten, s')
  {
    hide TorrentsAdded, TasksAdded, LatestSet, TenToEleven, NineDangles, Dangles, SharesTask, TaskDangles, Clash;
    ten :| NineToTen(s, ten) && !SharesTask(ten) && !TenDangles(ten) && FromTen(ten, s', Ok(()));
    TenAfterNine(s, ten);
    middle :| TorrentsAdded(s.torrents, s.jobs, middle) && TasksAdded(s.jobs, middle, ten.tasks)
           && LatestSet(middle, ten.tasks, ten.torrents)
           && ten == s.(version := 10, torrents := ten.torrents, jobs := map[], tasks := ten.tasks);
  }

  // ----- Tasks -----

  /** A task says what a job said. */
  predicate Mirrors(task: LegacyTask, torrents: map<nat, LegacyTorrent>, job: LegacyJob) {
    && task.torrent in torrents && torrents[task.torrent].infoHash == Lower(job.infoHash) && task.source == "legacy"
    && task.magnetURI == job.magnetURI && task.state == job.state && task.error == job.error
    && task.createdAt == job.createdAt && task.startedAt == job.startedAt && task.finishedAt == job.finishedAt
    && task.resultId == task.deleteFileId == task.workDirId == ""
  }

  ghost predicate AllMirror(s: Store, s': Store) {
    forall id | id in s'.tasks ::
      s'.tasks[id].gid in s.jobs && Mirrors(s'.tasks[id], s'.torrents, s.jobs[s'.tasks[id].gid])
  }

  ghost predicate EachOnce(jobs: map<string, LegacyJob>, tasks: map<nat, LegacyTask>) {
    && (forall g | g in jobs :: exists id | id in tasks :: tasks[id].gid == g)
    && (forall i, j | i in tasks && j in tasks && i != j :: tasks[i].gid != tasks[j].gid)
  }

  /** Tasks and jobs correspond one to one by gid. */
  lemma TasksMirrorJobs(s: Store, middle: map<nat, LegacyTorrent>, ten: Store, s': Store)
    requires Upgraded(s, middle, ten, s')
    ensures AllMirror(s, s') && EachOnce(s.jobs, s'.tasks)
  {
    HashesStay(middle, ten, s');
    EachStays(s.jobs, ten.tasks, middle);
    hide TorrentsAdded, TasksAdded, EachOnce, LatestSet, ArtifactsAdded, AllAttached, WithoutLatest, Dangles, IsTask,
         Mirrors;
    forall id | id in s'.tasks
      ensures s'.tasks[id].gid in s.jobs && Mirrors(s'.tasks[id], s'.torrents, s.jobs[s'.tasks[id].gid])
    {
      TaskMirrors(s.jobs, middle, ten.tasks[id], s'.tasks[id], s'.torrents);
    }
  }

  lemma EachStays(jobs: map<string, LegacyJob>, tasks: map<nat, LegacyTask>, middle: map<nat, LegacyTorrent>)
    requires TasksAdded(jobs, middle, tasks)
    ensures EachOnce(jobs, WithoutResults(tasks))
    ensures forall id | id in tasks :: IsTask(jobs, middle, tasks[id])
  {
    hide IsTask;
    var after := WithoutResults(tasks);
    forall g | g in jobs ensures exists id | id in after :: after[id].gid == g {
      var id :| id in tasks && tasks[id].gid == g;
      assert after[id].gid == g;
    }
  }

  lemma TaskMirrors(jobs: map<string, LegacyJob>, middle: map<nat, LegacyTorrent>, task: LegacyTask,
                    task': LegacyTask, torrents: map<nat, LegacyTorrent>)
    requires IsTask(jobs, middle, task) && task' == task.(resultId := "", deleteFileId := "", workDirId := "")
    requires forall t | t in middle :: t in torrents && torrents[t].infoHash == middle[t].infoHash
    ensures task'.gid in jobs && Mirrors(task', torrents, jobs[task'.gid])
  {
  }

  lemma HashesStay(middle: map<nat, LegacyTorrent>, ten: Store, s': Store)
    requires LatestSet(middle, ten.tasks, ten.torrents) && TenToEleven(ten, s')
    ensures s'.torrents.Keys == ten.torrents.Keys == middle.Keys
    ensures forall t | t in middle :: s'.torrents[t].infoHash == ten.torrents[t].infoHash == middle[t].infoHash
  {
    hide IsLatest, ArtifactsAdded, AllAttached, WithoutResults;
  }

  // ----- Results -----

  /** The result columns that a torrent had at version 9. */
  function ResultOf(s: Store, t: nat): (string, string, string) {
    if t in s.torrents then (s.torrents[t].resultId, s.torrents[t].deleteFileId, s.torrents[t].workDirId)
    else ("", "", "")
  }

  predicate HasSuccess(s: Store, hash: string) {
    exists g | g in s.jobs :: Lower(s.jobs[g].infoHash) == hash && s.jobs[g].state == Succeeded
  }

  lemma LatestIffSuccess(s: Store, middle: map<nat, LegacyTorrent>, ten: Store, t: nat)
    requires TasksAdded(s.jobs, middle, ten.tasks) && LatestSet(middle, ten.tasks, ten.torrents)
    requires HashesDiffer(middle) && t in ten.torrents
    ensures ten.torrents[t].latest.Some? <==> HasSuccess(s, ten.torrents[t].infoHash)
  {
    hide Lower, NotAfter;
    var hash := ten.torrents[t].infoHash;
    if HasSuccess(s, hash) {
      var g :| g in s.jobs && Lower(s.jobs[g].infoHash) == hash && s.jobs[g].state == Succeeded;
      var id :| id in ten.tasks && ten.tasks[id].gid == g;
      assert IsTask(s.jobs, middle, ten.tasks[id]);
      assert Succeeds(ten.tasks, id, t);
    }
    if ten.torrents[t].latest.Some? {
      var id := ten.torrents[t].latest.value;
      assert Succeeds(ten.tasks, id, t) && IsTask(s.jobs, middle, ten.tasks[id]);
      var g := ten.tasks[id].gid;
      assert Lower(s.jobs[g].infoHash) == hash && s.jobs[g].state == Succeeded;
    }
  }

  /** The only artifact of the torrent has its result and belongs to the last of its successful tasks. */
  ghost predicate CarriesResult(s: Store, s': Store, t: nat, a: nat) {
    && a in s'.artifacts && s'.artifacts[a].torrent == t
    && (s'.artifacts[a].resultId, s'.artifacts[a].deleteFileId, s'.artifacts[a].workDirId) == ResultOf(s, t)
    && s'.artifacts[a].createdBy.Some? && IsLatest(s'.tasks, s'.tasks.Keys, t, s'.artifacts[a].createdBy)
    && (forall b | b in s'.artifacts && s'.artifacts[b].torrent == t :: b == a)
    && EndsLast(s'.tasks, t, s'.artifacts[a])
  }

  /**
   The artifact's task is the successful task of the torrent that ended last: by its end, or its creation if
   it has none, and then by its id. The artifact has its times.
   */
  ghost predicate EndsLast(tasks: map<nat, LegacyTask>, t: nat, row: NewArtifact) {
    && row.createdBy.Some? && row.createdBy.value in tasks
    && var last := tasks[row.createdBy.value];
       && last.torrent == t && last.state == Succeeded && row.createdAt == last.createdAt
       && row.updatedAt == (if last.finishedAt.Some? then last.finishedAt.value else last.createdAt)
       && row.verifiedAt == Some(row.updatedAt)
       && forall id | id in tasks && tasks[id].torrent == t && tasks[id].state == Succeeded ::
            var end := if tasks[id].finishedAt.Some? then tasks[id].finishedAt.value else tasks[id].createdAt;
            end < row.updatedAt || (end == row.updatedAt && id <= row.createdBy.value)
  }

  /** A torrent with a succeeded job has one artifact, which carries the result that the torrent had. */
  lemma ResultMovesToArtifact(s: Store, middle: map<nat, LegacyTorrent>, ten: Store, s': Store, t: nat)
    requires Upgraded(s, middle, ten, s') && t in s'.torrents && HasSuccess(s, s'.torrents[t].infoHash)
    ensures exists a :: CarriesResult(s, s', t, a)
  {
    HashesStay(middle, ten, s');
    LatestIffSuccess(s, middle, ten, t);
    LatestTask(middle, ten, t);
    var id := ten.torrents[t].latest.value;
    TaskCarriesResult(s, middle, ten, id);
    LatestWithoutResults(ten.tasks, t, ten.torrents[t].latest);
    LatestEnds(ten.tasks, t, ten.torrents[t].latest);
    hide EndsLast, HasSuccess, IsLatest, TorrentsAdded, TasksAdded, LatestSet, HeldRoots, AllAttached, WithoutResults,
         WithoutLatest,
         Dangles;
    var a :| a in s'.artifacts && s'.artifacts[a].torrent == t;
    assert IsArtifact(ten, s'.artifacts[a]) && s'.artifacts[a] == ArtifactOf(ten.tasks, t, id);
    assert CarriesResult(s, s', t, a);
  }

  lemma LatestTask(middle: map<nat, LegacyTorrent>, ten: Store, t: nat)
    requires LatestSet(middle, ten.tasks, ten.torrents) && t in ten.torrents && ten.torrents[t].latest.Some?
    ensures IsLatest(ten.tasks, ten.tasks.Keys, t, ten.torrents[t].latest)
    ensures Succeeds(ten.tasks, ten.torrents[t].latest.value, t)
  {
  }

  lemma TaskCarriesResult(s: Store, middle: map<nat, LegacyTorrent>, ten: Store, id: nat)
    requires TorrentsAdded(s.torrents, s.jobs, middle) && TasksAdded(s.jobs, middle, ten.tasks) && id in ten.tasks
    ensures var task := ten.tasks[id];
            (task.resultId, task.deleteFileId, task.workDirId) == ResultOf(s, task.torrent)
  {
    hide Lower, MissingHashes, Following, HashesDiffer, HaveHashes, GroupOf;
    assert IsTask(s.jobs, middle, ten.tasks[id]);
  }

  lemma LatestEnds(tasks: map<nat, LegacyTask>, t: nat, latest: Option<nat>)
    requires latest.Some? && IsLatest(tasks, tasks.Keys, t, latest)
    ensures latest.value in tasks && EndsLast(WithoutResults(tasks), t, ArtifactOf(tasks, t, latest.value))
  {
    forall id | id in tasks && tasks[id].torrent == t && tasks[id].state == Succeeded
      ensures NotAfter(tasks, id, latest.value)
    {
      assert Succeeds(tasks, id, t);
    }
  }

  lemma LatestWithoutResults(tasks: map<nat, LegacyTask>, t: nat, latest: Option<nat>)
    requires IsLatest(tasks, tasks.Keys, t, latest)
    ensures var tasks' := WithoutResults(tasks); IsLatest(tasks', tasks'.Keys, t, latest)
  {
    var tasks' := WithoutResults(tasks);
    assert forall id :: Succeeds(tasks', id, t) <==> Succeeds(tasks, id, t);
    assert forall i, j | i in tasks && j in tasks :: NotAfter(tasks', i, j) <==> NotAfter(tasks, i, j);
  }

  // ----- Locations -----

  /** A live managed location of the torrent at the only provider. */
  predicate IsCopy(locations: map<nat, LegacyLocation>, l: nat, t: nat) {
    && l in locations && locations[l].managed && locations[l].live
    && locations[l].provider == "p115" && locations[l].torrent == Some(t)
  }

  predicate HasArtifactOf(s': Store, l: nat, t: nat) {
    && l in s'.locations && s'.locations[l].torrent == Some(t)
    && s'.locations[l].artifact.Some? && s'.locations[l].artifact.value in s'.artifacts
    && s'.artifacts[s'.locations[l].artifact.value].torrent == t
  }

  /** Every such location ends with an artifact of its torrent. */
  lemma LocationsGetArtifacts(ten: Store, s': Store, l: nat, t: nat)
    requires TenToEleven(ten, s') && t in ten.torrents && IsCopy(ten.locations, l, t)
    ensures HasArtifactOf(s', l, t)
    ensures s'.locations[l].artifact == Some(Maximum(ArtifactsOf(s'.artifacts, ten.locations[l])))
  {
    hide WithoutResults, WithoutLatest, LastTask, ArtifactOf;
    var a;
    if LastTask(ten, t).Some? {
      a :| a in s'.artifacts && s'.artifacts[a].torrent == t;
    } else {
      assert (t, ten.locations[l].root) in HeldRoots(ten);
      a :| a in s'.artifacts && RootOf(s'.artifacts[a]) == (t, ten.locations[l].root);
    }
    assert a in ArtifactsOf(s'.artifacts, ten.locations[l]);
  }

  /** Every copy of the torrent gets an artifact of the copy's own root. */
  ghost predicate AllOwn(ten: Store, s': Store, t: nat)
    requires TenToEleven(ten, s') && t in ten.torrents
  {
    forall l | IsCopy(ten.locations, l, t) ::
      HasArtifactOf(s', l, t) && s'.artifacts[s'.locations[l].artifact.value].workDirId == ten.locations[l].root
  }

  ghost predicate OneRoot(locations: map<nat, LegacyLocation>, t: nat) {
    forall l, k | IsCopy(locations, l, t) && IsCopy(locations, k, t) :: locations[l].root == locations[k].root
  }

  predicate OnlyProvider(locations: map<nat, LegacyLocation>, t: nat) {
    forall l | l in locations && locations[l].managed && locations[l].live && locations[l].torrent == Some(t) ::
      locations[l].provider == "p115"
  }

  /**
   All copies go to one artifact: to that of the last successful task, or else to the one of some held
   root. So each copy gets the artifact of its own root exactly when its root is that task's work
   directory, or else when the copies have one root.
   */
  lemma OwnRootIff(ten: Store, s': Store, t: nat)
    requires TenToEleven(ten, s') && t in ten.torrents
    ensures match LastTask(ten, t)
            case Some(id) =>
              AllOwn(ten, s', t) <==>
              forall l | IsCopy(ten.locations, l, t) :: ten.locations[l].root == ten.tasks[id].workDirId
            case None =>
              && (AllOwn(ten, s', t) ==> OneRoot(ten.locations, t))
              && (OneRoot(ten.locations, t) && OnlyProvider(ten.locations, t) ==> AllOwn(ten, s', t))
  {
    forall l | IsCopy(ten.locations, l, t) ensures HasArtifactOf(s', l, t) {
      LocationsGetArtifacts(ten, s', l, t);
    }
    if LastTask(ten, t).Some? {
      forall l | IsCopy(ten.locations, l, t)
        ensures s'.artifacts[s'.locations[l].artifact.value].workDirId == ten.tasks[LastTask(ten, t).value].workDirId
      {
        assert IsArtifact(ten, s'.artifacts[s'.locations[l].artifact.value]);
      }
    } else {
      OneArtifact(ten, s', t);
      if OnlyProvider(ten.locations, t) {
        forall l | IsCopy(ten.locations, l, t)
          ensures exists k :: IsCopy(ten.locations, k, t)
                              && s'.artifacts[s'.locations[l].artifact.value].workDirId == ten.locations[k].root
        {
          RootIsHeld(ten, s', t, s'.locations[l].artifact.value);
        }
      }
    }
  }

  lemma OneArtifact(ten: Store, s': Store, t: nat)
    requires TenToEleven(ten, s') && t in ten.torrents
    ensures forall l, k | IsCopy(ten.locations, l, t) && IsCopy(ten.locations, k, t) ::
              l in s'.locations && k in s'.locations && s'.locations[l].artifact == s'.locations[k].artifact
  {
    forall l, k | IsCopy(ten.locations, l, t) && IsCopy(ten.locations, k, t)
      ensures s'.locations[l].artifact == s'.locations[k].artifact
    {
      assert ArtifactsOf(s'.artifacts, ten.locations[l]) == ArtifactsOf(s'.artifacts, ten.locations[k]);
    }
  }

  lemma RootIsHeld(ten: Store, s': Store, t: nat, a: nat)
    requires TenToEleven(ten, s') && t in ten.torrents && LastTask(ten, t).None? && OnlyProvider(ten.locations, t)
    requires a in s'.artifacts && s'.artifacts[a].torrent == t
    ensures exists k :: IsCopy(ten.locations, k, t) && s'.artifacts[a].workDirId == ten.locations[k].root
  {
    assert IsArtifact(ten, s'.artifacts[a]);
    var k :| k in ten.locations && ten.locations[k].managed && ten.locations[k].live
          && ten.locations[k].torrent == Some(t) && ten.locations[k].root == s'.artifacts[a].workDirId;
    assert IsCopy(ten.locations, k, t);
  }

  /** A location has an artifact afterwards exactly if it is managed, at the provider, and its torrent has one. */
  lemma AttachedIff(ten: Store, s': Store, l: nat)
    requires TenToEleven(ten, s') && l in ten.locations
    ensures l in s'.locations && s'.locations[l] == ten.locations[l].(root := "", artifact := s'.locations[l].artifact)
    ensures s'.locations[l].artifact.Some? <==>
            && ten.locations[l].managed && ten.locations[l].provider == "p115"
            && (exists a | a in s'.artifacts :: ten.locations[l].torrent == Some(s'.artifacts[a].torrent))
    ensures s'.locations[l].artifact.Some? ==>
              var a := s'.locations[l].artifact.value;
              && a in s'.artifacts && ten.locations[l].torrent == Some(s'.artifacts[a].torrent)
              && forall b | b in s'.artifacts && s'.artifacts[b].torrent == s'.artifacts[a].torrent :: b <= a
  {
    var own := ArtifactsOf(s'.artifacts, ten.locations[l]);
    assert forall a :: a in own <==> a in s'.artifacts && ten.locations[l].torrent == Some(s'.artifacts[a].torrent)
                                     && ten.locations[l].provider == "p115";
    hide ArtifactsAdded, WithoutResults, WithoutLatest, ArtifactsOf, Maximum;
  }

  /**
   A torrent without a last successful task gets one artifact for every root that a live managed location of
   it has, with nothing but that root and the torrent's times.
   */
  lemma RootArtifacts(ten: Store, s': Store, t: nat, root: string)
    requires TenToEleven(ten, s') && t in ten.torrents && LastTask(ten, t).None?
    ensures (exists a :: IsRootArtifact(ten, s', a, t, root)) <==>
            exists l :: HoldsRoot(ten.locations, l, t, root)
    ensures forall a, b | IsRootArtifact(ten, s', a, t, root) && IsRootArtifact(ten, s', b, t, root) :: a == b
    ensures forall a | a in s'.artifacts && s'.artifacts[a].torrent == t ::
              IsRootArtifact(ten, s', a, t, s'.artifacts[a].workDirId)
  {
    hide WithoutResults, WithoutLatest, AllAttached, LastTask, ArtifactOf;
    if l :| HoldsRoot(ten.locations, l, t, root) {
      assert (t, root) in HeldRoots(ten);
      var a :| a in s'.artifacts && RootOf(s'.artifacts[a]) == (t, root);
      assert IsArtifact(ten, s'.artifacts[a]);
      assert IsRootArtifact(ten, s', a, t, root);
    }
    if a :| IsRootArtifact(ten, s', a, t, root) {
      assert IsArtifact(ten, s'.artifacts[a]) && RootOf(s'.artifacts[a]) == (t, root);
      var l :| l in ten.locations && ten.locations[l].managed && ten.locations[l].live
            && ten.locations[l].torrent == Some(t) && ten.locations[l].root == root;
      assert HoldsRoot(ten.locations, l, t, root);
    }
    forall a | a in s'.artifacts && s'.artifacts[a].torrent == t
      ensures IsRootArtifact(ten, s', a, t, s'.artifacts[a].workDirId)
    {
      assert IsArtifact(ten, s'.artifacts[a]);
    }
  }

  predicate HoldsRoot(locations: map<nat, LegacyLocation>, l: nat, t: nat, root: string) {
    && l in locations && locations[l].managed && locations[l].live
    && locations[l].torrent == Some(t) && locations[l].root == root
  }

  predicate IsRootArtifact(ten: Store, s': Store, a: nat, t: nat, root: string)
    requires t in ten.torrents
  {
    && a in s'.artifacts
    && s'.artifacts[a] ==
       NewArtifact(t, None, "", "", root, None, ten.torrents[t].createdAt, ten.torrents[t].updatedAt)
  }

  // ----- Integrity -----

  /** The foreign keys and unique columns of version 11. */
  ghost predicate IsSound(s: Store) {
    && (forall id | id in s.tasks :: s.tasks[id].torrent in s.torrents)
    && (forall a | a in s.artifacts ::
          && s.artifacts[a].torrent in s.torrents
          && (s.artifacts[a].createdBy.Some? ==> s.artifacts[a].createdBy.value in s.tasks))
    && (forall a, b | a in s.artifacts && b in s.artifacts && a != b && s.artifacts[a].createdBy.Some? ::
          s.artifacts[a].createdBy != s.artifacts[b].createdBy)
    && (forall l | l in s.locations ::
          && (s.locations[l].torrent.Some? ==> s.locations[l].torrent.value in s.torrents)
          && (s.locations[l].artifact.Some? ==> s.locations[l].artifact.value in s.artifacts))
    && (forall i, j | i in s.tasks && j in s.tasks && i != j && s.tasks[i].torrent == s.tasks[j].torrent
                      && s.tasks[i].source == s.tasks[j].source ::
          !(s.tasks[i].state in {Queued, JobState.Running} && s.tasks[j].state in {Queued, JobState.Running}))
  }

  /** Whatever version 10 held: a database that gets to version 11 satisfies its constraints. */
  lemma ElevenIsSound(ten: Store, s': Store)
    requires FromTen(ten, s', Ok(()))
    ensures IsSound(s') && s'.version == 11
  {
    assert TenToEleven(ten, s') && !SharesTask(ten) && !Clash(ten.tasks) && !TenDangles(ten);
    CreatorsDiffer(ten, s');
    PlacesSound(ten, s');
    ArtifactsSound(ten, s');
    TasksSound(ten, s');
    hide AllAttached, WithoutResults, WithoutLatest, ArtifactsAdded, SharesTask, Clash, TenDangles;
  }

  lemma PlacesSound(ten: Store, s': Store)
    requires TenToEleven(ten, s') && !TenDangles(ten)
    ensures forall l | l in s'.locations ::
              && (s'.locations[l].torrent.Some? ==> s'.locations[l].torrent.value in s'.torrents)
              && (s'.locations[l].artifact.Some? ==> s'.locations[l].artifact.value in s'.artifacts)
  {
    assert s'.locations.Keys == ten.locations.Keys && s'.torrents.Keys == ten.torrents.Keys;
    forall l | l in s'.locations
      ensures s'.locations[l].artifact.Some? ==> s'.locations[l].artifact.value in s'.artifacts
      ensures s'.locations[l].torrent == ten.locations[l].torrent
    {
      AttachedIff(ten, s', l);
    }
    hide TenToEleven;
  }

  lemma ArtifactsSound(ten: Store, s': Store)
    requires TenToEleven(ten, s')
    ensures forall a | a in s'.artifacts ::
              && s'.artifacts[a].torrent in s'.torrents
              && (s'.artifacts[a].createdBy.Some? ==> s'.artifacts[a].createdBy.value in s'.tasks)
  {
    assert s'.torrents.Keys == ten.torrents.Keys && s'.tasks.Keys == ten.tasks.Keys;
    hide AllAttached, WithoutResults, WithoutLatest, HeldRoots;
    forall a | a in s'.artifacts
      ensures s'.artifacts[a].torrent in s'.torrents
      ensures s'.artifacts[a].createdBy.Some? ==> s'.artifacts[a].createdBy.value in s'.tasks
    {
      assert IsArtifact(ten, s'.artifacts[a]);
    }
  }

  lemma TasksSound(ten: Store, s': Store)
    requires TenToEleven(ten, s') && !TenDangles(ten) && !Clash(ten.tasks)
    ensures forall id | id in s'.tasks :: s'.tasks[id].torrent in s'.torrents
    ensures forall i, j | i in s'.tasks && j in s'.tasks && i != j && s'.tasks[i].torrent == s'.tasks[j].torrent
                          && s'.tasks[i].source == s'.tasks[j].source ::
              !(s'.tasks[i].state in {Queued, JobState.Running} && s'.tasks[j].state in {Queued, JobState.Running})
  {
    assert s'.torrents.Keys == ten.torrents.Keys;
    hide AllAttached, WithoutLatest, ArtifactsAdded, Dangles;
    forall id | id in s'.tasks
      ensures s'.tasks[id].torrent == ten.tasks[id].torrent && s'.tasks[id].source == ten.tasks[id].source
      ensures s'.tasks[id].state in {Queued, JobState.Running} <==> IsActive(ten.tasks[id].state)
    {
    }
    hide TenToEleven, IsActive;
  }

  lemma CreatorsDiffer(ten: Store, s': Store)
    requires TenToEleven(ten, s') && !SharesTask(ten)
    ensures forall a, b | a in s'.artifacts && b in s'.artifacts && a != b && s'.artifacts[a].createdBy.Some? ::
              s'.artifacts[a].createdBy != s'.artifacts[b].createdBy
  {
    hide AllAttached, WithoutResults, WithoutLatest, HeldRoots;
    forall a, b | a in s'.artifacts && b in s'.artifacts && a != b && s'.artifacts[a].createdBy.Some?
                  && s'.artifacts[b].createdBy.Some?
      ensures s'.artifacts[a].createdBy != s'.artifacts[b].createdBy
    {
      assert IsArtifact(ten, s'.artifacts[a]) && IsArtifact(ten, s'.artifacts[b]);
      assert s'.artifacts[a].createdBy == LastTask(ten, s'.artifacts[a].torrent);
      assert s'.artifacts[b].createdBy == LastTask(ten, s'.artifacts[b].torrent);
    }
  }

  /** Old torrents keep all but their results. */
  lemma TorrentsSurvive(s: Store, middle: map<nat, LegacyTorrent>, ten: Store, s': Store, t: nat)
    requires Upgraded(s, middle, ten, s') && t in s.torrents
    ensures t in s'.torrents
    ensures s'.torrents[t] == s.torrents[t].(resultId := "", deleteFileId := "", workDirId := "", latest := None)
  {
    hide MissingHashes, Following, IsAggregate, HaveHashes, TasksAdded, ArtifactsAdded, AllAttached, WithoutResults,
         IsLatest, Dangles, HashesDiffer;
  }

  /** Every job has a torrent of its hash in lower case. */
  lemma JobsGetTorrents(s: Store, middle: map<nat, LegacyTorrent>, ten: Store, s': Store, g: string)
    requires Upgraded(s, middle, ten, s') && g in s.jobs
    ensures exists t | t in s'.torrents :: s'.torrents[t].infoHash == Lower(s.jobs[g].infoHash)
  {
    JobsHaveTorrents(s, middle);
    HashesStay(middle, ten, s');
    hide Upgraded, Lower;
    var t :| t in middle && Matches(s.jobs, middle, g, t);
    assert s'.torrents[t].infoHash == Lower(s.jobs[g].infoHash);
  }

  /** A new torrent has the hash of some job, which no other torrent has, and what the jobs of the hash say. */
  lemma NewTorrents(s: Store, middle: map<nat, LegacyTorrent>, ten: Store, s': Store, t: nat)
    requires Upgraded(s, middle, ten, s') && t in s'.torrents && t !in s.torrents
    ensures forall u | u in s'.torrents && u != t :: s'.torrents[u].infoHash != s'.torrents[t].infoHash
    ensures var row := s'.torrents[t];
            var group := set g | g in s.jobs && Lower(s.jobs[g].infoHash) == row.infoHash;
            && (exists g | g in group :: s.jobs[g].magnetURI == row.magnetURI)
            && (forall g | g in group :: AtMost(s.jobs[g].magnetURI, row.magnetURI))
            && (exists g | g in group :: s.jobs[g].createdAt == row.createdAt)
            && (exists g | g in group :: s.jobs[g].createdAt == row.updatedAt)
            && (forall g | g in group :: row.createdAt <= s.jobs[g].createdAt <= row.updatedAt)
            && row == LegacyTorrent(row.infoHash, row.magnetURI, "", "", "", row.createdAt, row.updatedAt, None)
  {
    HashesStay(middle, ten, s');
    NewRow(s, middle, ten, s', t);
    hide MissingHashes, Following, IsAggregate, HaveHashes, TasksAdded, LatestSet, TenToEleven, Lower, AtMost, Dangles;
    assert (set g | g in s.jobs && Lower(s.jobs[g].infoHash) == s'.torrents[t].infoHash) ==
           GroupOf(s.jobs, middle[t].infoHash);
  }

  lemma NewRow(s: Store, middle: map<nat, LegacyTorrent>, ten: Store, s': Store, t: nat)
    requires Upgraded(s, middle, ten, s') && t in s'.torrents && t !in s.torrents
    ensures t in middle && s'.torrents[t] == middle[t]
    ensures Aggregates(s.jobs, GroupOf(s.jobs, middle[t].infoHash), middle[t])
  {
    HashesStay(middle, ten, s');
    assert IsAggregate(s.jobs, middle[t]);
    hide MissingHashes, Following, HaveHashes, TasksAdded, ArtifactsAdded, AllAttached, WithoutResults,
         IsLatest, Dangles, HashesDiffer, GroupOf, Lower, AtMost;
  }

  // ----- Failure -----

  predicate JobsClash(jobs: map<string, LegacyJob>) {
    exists g, k | g in jobs && k in jobs ::
      g != k && IsActive(jobs[g].state) && IsActive(jobs[k].state) && Lower(jobs[g].infoHash) == Lower(jobs[k].infoHash)
  }

  /** The new unique index stops an upgrade exactly when two active jobs have one info hash up to case. */
  lemma ClashIffJobs(s: Store, middle: map<nat, LegacyTorrent>, ten: Store)
    requires TasksAdded(s.jobs, middle, ten.tasks) && HashesDiffer(middle)
    ensures Clash(ten.tasks) <==> JobsClash(s.jobs)
  {
    hide TasksAdded, Clash, JobsClash;
    if Clash(ten.tasks) {
      ClashNeedsJobs(s.jobs, middle, ten.tasks);
    }
    if JobsClash(s.jobs) {
      JobsMakeClash(s.jobs, middle, ten.tasks);
    }
  }

  lemma ClashNeedsJobs(jobs: map<string, LegacyJob>, middle: map<nat, LegacyTorrent>, tasks: map<nat, LegacyTask>)
    requires TasksAdded(jobs, middle, tasks) && Clash(tasks)
    ensures JobsClash(jobs)
  {
    hide Lower, IsActive;
    var i, j :| i in tasks && j in tasks && i != j && IsActive(tasks[i].state) && IsActive(tasks[j].state)
             && tasks[i].source == tasks[j].source && tasks[i].torrent == tasks[j].torrent;
    var g, k := tasks[i].gid, tasks[j].gid;
    assert IsTask(jobs, middle, tasks[i]) && IsTask(jobs, middle, tasks[j]) && g != k;
  }

  lemma JobsMakeClash(jobs: map<string, LegacyJob>, middle: map<nat, LegacyTorrent>, tasks: map<nat, LegacyTask>)
    requires TasksAdded(jobs, middle, tasks) && HashesDiffer(middle) && JobsClash(jobs)
    ensures Clash(tasks)
  {
    hide Lower, IsActive;
    var g, k :| g in jobs && k in jobs && g != k && IsActive(jobs[g].state) && IsActive(jobs[k].state)
             && Lower(jobs[g].infoHash) == Lower(jobs[k].infoHash);
    var i :| i in tasks && tasks[i].gid == g;
    var j :| j in tasks && tasks[j].gid == k;
    assert IsTask(jobs, middle, tasks[i]) && IsTask(jobs, middle, tasks[j]);
    assert tasks[i].torrent == tasks[j].torrent && tasks[i].source == tasks[j].source;
  }

  // ----- The whole upgrade -----

  /** The ids of so many rows after all that are in use. */
  predicate IsNext(used: set<nat>, id: nat, count: nat) {
    && id > 0 && (forall u | u in used :: u < id)
    && (if used == {} then id <= count else exists u | u in used :: id <= u + count)
  }

  lemma FollowingMeans(used: set<nat>, count: nat, id: nat)
    ensures id in Following(used, count) <==> IsNext(used, id, count)
  {
    if used != {} {
      assert NextId(used) - 1 in used;
    }
  }

  /** A location names a torrent that is not there and is not added for a job either. */
  ghost predicate NamesNothing(s: Store) {
    exists l, t | l in s.locations && s.locations[l].torrent == Some(t) ::
      t !in s.torrents && !IsNext(s.torrents.Keys, t, |MissingHashes(s.torrents, s.jobs)|)
  }

  lemma DanglingMeans(s: Store)
    ensures NineDangles(s) <==> NamesNothing(s)
  {
    forall t ensures t in Following(s.torrents.Keys, |MissingHashes(s.torrents, s.jobs)|) <==>
                     IsNext(s.torrents.Keys, t, |MissingHashes(s.torrents, s.jobs)|)
    {
      FollowingMeans(s.torrents.Keys, |MissingHashes(s.torrents, s.jobs)|, t);
    }
    hide Following, IsNext, MissingHashes;
  }

  /** What the last step answers: in this order. */
  lemma TenAnswers(ten: Store, s': Store, done: Result<(), UpgradeError>)
    requires FromTen(ten, s', done)
    ensures done ==
            if exists t, u, id | t in ten.torrents && u in ten.torrents && id in ten.tasks ::
                 t != u && ten.torrents[t].latest == Some(id) && ten.torrents[u].latest == Some(id) then Err(SharedTask)
            else if (exists i, j | i in ten.tasks && j in ten.tasks ::
                       i != j && Conflict(ten.tasks[i], ten.tasks[j])) then
              Err(DuplicateActiveTask)
            else if (exists l, t | l in ten.locations && ten.locations[l].torrent == Some(t) :: t !in ten.torrents)
                    || (exists id | id in ten.tasks :: ten.tasks[id].torrent !in ten.torrents) then
              Err(DanglingReference)
            else Ok(())
  {
    SharingMeans(ten);
    ClashMeans(ten.tasks);
    DanglesMeans(ten.torrents.Keys, ten.locations);
    hide TenToEleven, SharesTask, Clash, Dangles;
  }

  lemma SharingMeans(ten: Store)
    ensures SharesTask(ten) <==> exists t, u, id | t in ten.torrents && u in ten.torrents && id in ten.tasks ::
              t != u && ten.torrents[t].latest == Some(id) && ten.torrents[u].latest == Some(id)
  {
  }

  lemma ClashMeans(tasks: map<nat, LegacyTask>)
    ensures Clash(tasks) <==> exists i, j | i in tasks && j in tasks :: i != j && Conflict(tasks[i], tasks[j])
  {
  }

  lemma DanglesMeans(torrents: set<nat>, locations: map<nat, LegacyLocation>)
    ensures Dangles(torrents, locations) <==>
            exists l, t | l in locations && locations[l].torrent == Some(t) :: t !in torrents
  {
  }

  /** Two active tasks of one source and torrent. */
  predicate Conflict(a: LegacyTask, b: LegacyTask) {
    && a.source == b.source && a.torrent == b.torrent
    && a.state in {Queued, JobState.Running} && b.state in {Queued, JobState.Running}
  }

  /** What does not dangle before the step does not dangle in it. */
  lemma NewTorrentsHelp(s: Store)
    ensures NineDangles(s) ==> Dangles(s.torrents.Keys, s.locations)
  {
    hide Following, MissingHashes;
  }

  /** What opening a database does that is not to be upgraded, and that every step is done whole or not at all. */
  lemma OpeningMeans(s: Store, s': Store, done: Result<(), UpgradeError>)
    requires Initialized(s, s', done)
    ensures s.version > 11 || (s.hasTables && s.version < 8) ==> done == Err(UnsupportedVersion) && s' == s
    ensures s.version <= 11 && !s.hasTables ==> done == Ok(()) && s' == s.(version := 11, hasTables := true)
    ensures s.hasTables && s.version == 11 ==> done == Ok(()) && s' == s
    ensures s.hasTables && s.version == 8
            && (exists l, t | l in s.locations && s.locations[l].torrent == Some(t) :: t !in s.torrents) ==>
              done == Err(DanglingReference) && s' == s
    ensures s.hasTables && s.version == 10 && done.Err? ==> s' == s
    ensures s.hasTables && 8 <= s.version <= 9 && done.Err? ==> s' == s || NineToTen(s.(version := 9), s')
    ensures done.Ok? ==> s'.version == 11 && s'.hasTables
  {
    DanglesMeans(s.torrents.Keys, s.locations);
    NewTorrentsHelp(s.(version := 9));
    hide NineDangles, Dangles, SharesTask, Clash, TenDangles, TorrentsAdded, TasksAdded, LatestSet, ArtifactsAdded,
         AllAttached, WithoutResults, WithoutLatest;
  }

  /** What opening a database of version 9 answers. */
  lemma UpgradeSucceedsIff(s: Store, s': Store, done: Result<(), UpgradeError>)
    requires s.version == 9 && s.hasTables && Initialized(s, s', done)
    ensures done == if NamesNothing(s) then Err(DanglingReference)
                    else if JobsClash(s.jobs) then Err(DuplicateActiveTask)
                    else Ok(())
  {
    DanglingMeans(s);
    hide TorrentsAdded, TasksAdded, LatestSet, TenToEleven, NineDangles, SharesTask, TenDangles, Clash, JobsClash,
         HashesDiffer, NamesNothing;
    if !NineDangles(s) {
      var ten :| NineToTen(s, ten) && !SharesTask(ten) && !TenDangles(ten) && FromTen(ten, s', done);
      var middle :| TorrentsAdded(s.torrents, s.jobs, middle) && TasksAdded(s.jobs, middle, ten.tasks)
                 && LatestSet(middle, ten.tasks, ten.torrents)
                 && ten == s.(version := 10, torrents := ten.torrents, jobs := map[], tasks := ten.tasks);
      JobsHaveTorrents(s, middle);
      ClashIffJobs(s, middle, ten);
    }
  }

  /**
   A database of version 9 that opens has a task for every job, the result of every torrent with a
   succeeded job in the artifact of its last successful task, and an artifact for every live copy.
   */
  lemma UpgradeKeepsMeaning(s: Store, s': Store)
    requires s.version == 9 && s.hasTables && Initialized(s, s', Ok(()))
    ensures AllMirror(s, s') && EachOnce(s.jobs, s'.tasks)
    ensures forall t | t in s'.torrents && HasSuccess(s, s'.torrents[t].infoHash) ::
              exists a :: CarriesResult(s, s', t, a)
    ensures forall l, t | IsCopy(s.locations, l, t) :: t in s'.torrents && HasArtifactOf(s', l, t)
  {
    var middle, ten := UpgradeHasMiddle(s, s');
    TasksMirrorJobs(s, middle, ten, s');
    HashesStay(middle, ten, s');
    hide Initialized, AllMirror, EachOnce, HasSuccess, CarriesResult, TorrentsAdded, TasksAdded, LatestSet,
         TenToEleven, HasArtifactOf;
    forall t | t in s'.torrents && HasSuccess(s, s'.torrents[t].infoHash)
      ensures exists a :: CarriesResult(s, s', t, a)
    {
      ResultMovesToArtifact(s, middle, ten, s', t);
    }
    forall l, t | IsCopy(s.locations, l, t) ensures t in s'.torrents && HasArtifactOf(s', l, t) {
      LocationsGetArtifacts(ten, s', l, t);
    }
  }

  /**
   In a database of version 9 that opens, the copies of a torrent get artifacts of their own roots exactly
   when each root is the torrent's work directory or, without a succeeded job, when they have one root.
   */
  lemma UpgradeKeepsRootsIff(s: Store, s': Store, t: nat)
    requires s.version == 9 && s.hasTables && Initialized(s, s', Ok(())) && t in s'.torrents
    ensures var own := forall l | IsCopy(s.locations, l, t) ::
              HasArtifactOf(s', l, t) && s'.artifacts[s'.locations[l].artifact.value].workDirId == s.locations[l].root;
            if HasSuccess(s, s'.torrents[t].infoHash)
            then own <==> forall l | IsCopy(s.locations, l, t) :: s.locations[l].root == ResultOf(s, t).2
            else (own ==> OneRoot(s.locations, t)) && (OneRoot(s.locations, t) && OnlyProvider(s.locations, t) ==> own)
  {
    var middle, ten := UpgradeHasMiddle(s, s');
    HashesStay(middle, ten, s');
    LatestIffSuccess(s, middle, ten, t);
    OwnRootIff(ten, s', t);
    if ten.torrents[t].latest.Some? {
      LatestTask(middle, ten, t);
      TaskCarriesResult(s, middle, ten, ten.torrents[t].latest.value);
    }
    hide Initialized, HasSuccess, TorrentsAdded, TasksAdded, LatestSet, TenToEleven, HasArtifactOf, IsCopy;
  }
}
