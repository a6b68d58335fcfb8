/**
 One run of a job while other callers use the catalogue (internal/ingest/service.go,
 internal/task/manager.go). What others do while the resolver runs, and what the resolver itself
 does, is an arbitrary sequence of repository calls.
 */
module JobRun {
  import opened Wrappers
  import opened Catalogue
  import opened CatalogueTheorems

  /** The result of a run: the resolver's own failure or an error of the repository. */
  datatype RunError = ResolveFailed | Repository(error: Error)

  function Started(job: Job): Call {
    UpdateJob(job.(state := Running, error := ""))
  }

  function Ended(job: Job, resolved: Result<(), string>): Call {
    UpdateJob(if resolved.Ok? then job.(state := Succeeded, error := "")
              else job.(state := Failed, error := resolved.error))
  }

  ghost function Final(t: Tables, job: Job, during: seq<Call>, resolved: Result<(), string>): Tables {
    if Outcome(t, Started(job)).Err? then t
    else Apply(Run(Apply(t, Started(job)), during), Ended(job, resolved))
  }

  ghost function Answer(t: Tables, job: Job, during: seq<Call>, resolved: Result<(), string>): Result<(), RunError> {
    match Outcome(t, Started(job))
    case Err(e) => Err(Repository(e))
    case Ok(t1) =>
      match Outcome(Run(t1, during), Ended(job, resolved))
      case Err(e) => if resolved.Ok? || e == JobCanceled then Err(Repository(e)) else Err(ResolveFailed)
      case Ok(_) => if resolved.Ok? then Ok(()) else Err(ResolveFailed)
  }

  /** One call made by somebody. */
  method Perform(repository: Catalogue.Repository, call: Call)
    modifies repository
    ensures repository.View() == Apply(old(repository.View()), call)
  {
    hide TaskSaved, ScanSaved, LocationSaved, LocationDeleted, ArtifactDeleted, SourceDeleted, StrmsSeeded,
         JobCreated, JobUpdated, JobCancelled, JobDeleted, TaskDropped, Recovered;
    match call {
      case SaveTask(magnetURI, infoHash, name, totalBytes, task) =>
        var _ := repository.SaveTask(magnetURI, infoHash, name, totalBytes, task);
      case SaveScan(scan, task) => var _ := repository.SaveScan(scan, task);
      case SaveLocation(sha1, remoteId, place, managed, source) =>
        var _ := repository.SaveLocation(sha1, remoteId, place, managed, source);
      case MarkLocationDeleted(remoteId) => repository.MarkLocationDeleted(remoteId);
      case MarkArtifactDeleted(id) => repository.MarkArtifactDeleted(id);
      case MarkSourceLocationsDeleted(infoHash) => repository.MarkSourceLocationsDeleted(infoHash);
      case MarkStrmSeeded(infoHash, paths) => var _ := repository.MarkStrmSeeded(infoHash, paths);
      case CreateJob(job) => var _ := repository.CreateJob(job);
      case UpdateJob(job) => var _ := repository.UpdateJob(job);
      case CancelJob(gid) => var _ := repository.CancelJob(gid);
      case DeleteJob(gid) => var _ := repository.DeleteJob(gid);
      case DeleteJobAny(gid) => repository.DeleteJobAny(gid);
      case RecoverRunningJobs(sources) => repository.RecoverRunningJobsBySource(sources);
    }
  }

  method PerformAll(repository: Catalogue.Repository, calls: seq<Call>)
    modifies repository
    ensures repository.View() == Run(old(repository.View()), calls)
  {
    hide Apply;
    ghost var start := repository.View();
    for i := 0 to |calls|
      invariant repository.View() == Run(start, calls[..i])
    {
      assert calls[..i + 1][..i] == calls[..i];
      Perform(repository, calls[i]);
    }
    assert calls[..|calls|] == calls;
  }

  method RunJobWithResolver(repository: Catalogue.Repository, job: Job, during: seq<Call>, resolved: Result<(), string>)
    returns (answer: Result<(), RunError>)
    modifies repository
    ensures repository.View() == Final(old(repository.View()), job, during, resolved)
    ensures answer == Answer(old(repository.View()), job, during, resolved)
  {
    hide JobUpdated, Run;
    var saved := repository.UpdateJob(job.(state := Running, error := ""));
    if saved.Err? {
      return Err(Repository(saved.error));
    }
    PerformAll(repository, during);
    if resolved.Err? {
      saved := repository.UpdateJob(job.(state := Failed, error := resolved.error));
      return Err(if saved.Err? && saved.error == JobCanceled then Repository(JobCanceled) else ResolveFailed);
    }
    saved := repository.UpdateJob(job.(state := Succeeded, error := ""));
    answer := if saved.Err? then Err(Repository(saved.error)) else Ok(());
  }

  lemma {:induction false} RunsCompose(t: Tables, a: seq<Call>, b: seq<Call>)
    ensures Run(t, a + b) == Run(Run(t, a), b)
  {
    hide Apply;
    if b == [] {
      assert a + b == a;
    } else {
      assert (a + b)[..|a + b| - 1] == a + b[..|b| - 1];
      RunsCompose(t, a, b[..|b| - 1]);
    }
  }

  /**
   A resolver that finishes after its job was canceled yields no result, whatever happens around it:
   the run returns the cancellation and the row stays canceled.
   */
  lemma CanceledRunFails(t: Tables, job: Job, a: seq<Call>, b: seq<Call>, resolved: Result<(), string>)
    requires Outcome(t, Started(job)).Ok?
    requires IsCanceled(Run(Apply(t, Started(job)), a), job.gid)
    requires forall i | 0 <= i < |b| :: !Removes(b[i], job.gid) && !Overwrites(b[i], job.gid)
    ensures Answer(t, job, a + b, resolved) == Err(Repository(JobCanceled))
    ensures IsCanceled(Final(t, job, a + b, resolved), job.gid)
    ensures Final(t, job, a + b, resolved) == Run(Apply(t, Started(job)), a + b)
  {
    var t1 := Apply(t, Started(job));
    RunsCompose(t1, a, b);
    CanceledAbsorbs(Run(t1, a), b, job.gid);
    hide Run;
  }

  /** A run returns a result exactly when the resolver did and the row is there and not canceled. */
  lemma ResultIff(t: Tables, job: Job, during: seq<Call>, resolved: Result<(), string>)
    ensures Answer(t, job, during, resolved).Ok? <==>
            && Outcome(t, Started(job)).Ok? && resolved.Ok?
            && var t1 := Run(Apply(t, Started(job)), during);
            job.gid in t1.tasks && t1.tasks[job.gid].state != Canceled
    ensures Answer(t, job, during, resolved).Ok? ==>
            var done := Final(t, job, during, resolved);
            job.gid in done.tasks && done.tasks[job.gid].state == Succeeded
  {
    hide Run;
  }

  /** Everything but this one row of the tasks is as before. */
  ghost predicate OnlyRow(before: Tables, after: Tables, gid: string) {
    && after == before.(tasks := after.tasks)
    && after.tasks.Keys == before.tasks.Keys
    && forall g | g in before.tasks && g != gid :: after.tasks[g] == before.tasks[g]
  }

  /** A row that can be written: it is there and not canceled. */
  predicate IsOpen(t: Tables, gid: string) {
    gid in t.tasks && t.tasks[gid].state != Canceled
  }

  /**
   A run starts exactly if its row is there, not canceled, and no other active task of the source and torrent
   is in the way; the row then runs without an error. A run that cannot start changes nothing.
   */
  lemma StartMeans(t: Tables, job: Job, during: seq<Call>, resolved: Result<(), string>)
    ensures var started := Apply(t, Started(job));
            if IsOpen(t, job.gid) && !Occupied(t.tasks, job.gid, t.tasks[job.gid].source, t.tasks[job.gid].torrent)
            then
              && OnlyRow(t, started, job.gid)
              && started.tasks[job.gid] ==
                 t.tasks[job.gid].(state := JobState.Running, error := "", magnetURI := job.magnetURI)
            else
              && Final(t, job, during, resolved) == t
              && Answer(t, job, during, resolved) ==
                 Err(Repository(if job.gid !in t.tasks then JobNotFound
                                else if t.tasks[job.gid].state == Canceled then JobCanceled
                                else NotUnique))
  {
    hide Run, Occupied;
  }

  /**
   What a run that started leaves: the row as it was found, succeeded without an error if the resolver
   succeeded and failed with exactly the resolver's error if it did not; a row that is gone or canceled
   stays as it is. Nothing else changes.
   */
  lemma EndMeans(t: Tables, job: Job, during: seq<Call>, resolved: Result<(), string>)
    requires Outcome(t, Started(job)).Ok?
    ensures var found := Run(Apply(t, Started(job)), during);
            var done := Final(t, job, during, resolved);
            && OnlyRow(found, done, job.gid)
            && (IsOpen(found, job.gid) && resolved.Ok? ==>
                  done.tasks[job.gid] ==
                  found.tasks[job.gid].(state := Succeeded, error := "", magnetURI := job.magnetURI))
            && (IsOpen(found, job.gid) && resolved.Err? ==>
                  done.tasks[job.gid] ==
                  found.tasks[job.gid].(state := JobState.Failed, error := resolved.error, magnetURI := job.magnetURI))
            && (!IsOpen(found, job.gid) ==> done == found)
  {
    hide Run, Occupied;
  }

  /** And what it answers. */
  lemma AnswerMeans(t: Tables, job: Job, during: seq<Call>, resolved: Result<(), string>)
    requires Outcome(t, Started(job)).Ok?
    ensures var found := Run(Apply(t, Started(job)), during);
            Answer(t, job, during, resolved) ==
            if IsCanceled(found, job.gid) then Err(Repository(JobCanceled))
            else if resolved.Err? then Err(ResolveFailed)
            else if job.gid !in found.tasks then Err(Repository(JobNotFound))
            else Ok(())
  {
    hide Run, Occupied;
  }

  /** A run that started leaves its row succeeded exactly if it gives a result. */
  lemma SucceededIffResult(t: Tables, job: Job, during: seq<Call>, resolved: Result<(), string>)
    requires Outcome(t, Started(job)).Ok?
    ensures IsSucceeded(Final(t, job, during, resolved), job.gid) <==> Answer(t, job, during, resolved).Ok?
    ensures IsSucceeded(Final(t, job, during, resolved), job.gid) ==> resolved.Ok?
  {
    EndMeans(t, job, during, resolved);
    AnswerMeans(t, job, during, resolved);
    hide Final, Answer, Run, Occupied, Outcome;
  }

  /**
   Only cancellation is protected: a second run of a succeeded job reopens its row, unless another
   active task of the source and torrent keeps it from starting.
   */
  lemma SecondRunReopens(t: Tables, job: Job)
    requires IsSucceeded(t, job.gid)
    ensures var row := t.tasks[job.gid];
            IsSucceeded(Apply(t, Started(job)), job.gid) <==> Occupied(t.tasks, job.gid, row.source, row.torrent)
  {
    SucceededStep(t, Started(job), job.gid);
    hide Apply, Occupied;
  }

  /**
   After a run has succeeded its row stays succeeded through whatever follows exactly when nobody
   deletes it or writes another state to it, such as the state that somebody read before the end.
   */
  lemma SuccessLasts(t: Tables, job: Job, during: seq<Call>, resolved: Result<(), string>, after: seq<Call>)
    requires Answer(t, job, during, resolved).Ok?
    ensures var done := Final(t, job, during, resolved);
            (forall i | 0 <= i <= |after| :: SucceededAt(done, after, job.gid, i)) <==>
            (forall i | 0 <= i < |after| :: SparedAt(done, after, job.gid, i))
  {
    ResultIff(t, job, during, resolved);
    SucceededAlways(Final(t, job, during, resolved), after, job.gid, |after|);
  }
}
