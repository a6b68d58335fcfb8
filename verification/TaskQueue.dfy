/**
 The queue between callers and the batch worker (internal/task/manager.go). A gid is marked while
 it waits, so that it waits only once; marks are made and taken back under their own lock, apart
 from the channel.
 */
module TaskQueue {
  import opened Texts
  import opened Wrappers
  import opened Catalogue
  import opened CatalogueTheorems
  import JobRun

  const CAPACITY := 128

  /** The gids of a request that are not waiting yet, each once. */
  function Fresh(queued: set<string>, gids: seq<string>): seq<string> {
    if gids == [] then []
    else
      var before, gid := Fresh(queued, gids[..|gids| - 1]), gids[|gids| - 1];
      before + if gid == "" || gid in queued || gid in before then [] else [gid]
  }

  function Elements(gids: seq<string>): set<string> {
    set g | g in gids
  }

  lemma {:induction false} FreshHas(queued: set<string>, gids: seq<string>, gid: string)
    ensures gid in Fresh(queued, gids) <==> gid in gids && gid !in queued && gid != ""
    ensures multiset(Fresh(queued, gids))[gid] == if gid in Fresh(queued, gids) then 1 else 0
  {
    if gids != [] {
      FreshHas(queued, gids[..|gids| - 1], gid);
      assert gids == gids[..|gids| - 1] + [gids[|gids| - 1]];
    }
  }

  lemma FreshMeans(queued: set<string>, gids: seq<string>)
    ensures Elements(Fresh(queued, gids)) == Elements(gids) - queued - {""}
    ensures forall g :: multiset(Fresh(queued, gids))[g] == if g in Fresh(queued, gids) then 1 else 0
    ensures Fresh(queued, gids) == [] <==> Elements(Fresh(queued, gids)) == {}
  {
    forall g
      ensures g in Elements(Fresh(queued, gids)) <==> g in Elements(gids) - queued - {""}
      ensures multiset(Fresh(queued, gids))[g] == if g in Fresh(queued, gids) then 1 else 0
    {
      FreshHas(queued, gids, g);
    }
    if Fresh(queued, gids) != [] {
      assert Fresh(queued, gids)[0] in Elements(Fresh(queued, gids));
    }
  }

  /** The channel takes the request, or there is nothing to send. */
  predicate HasRoom(queued: set<string>, queue: seq<seq<string>>, gids: seq<string>) {
    Fresh(queued, gids) == [] || |queue| < CAPACITY
  }

  function Batch(pending: seq<string>): seq<seq<string>> {
    if pending == [] then [] else [pending]
  }

  class Manager {
    var queued: set<string>
    var queue: seq<seq<string>>

    constructor ()
      ensures queued == {} && queue == []
    {
      queued, queue := {}, [];
    }

    method MarkMany(gids: seq<string>) returns (pending: seq<string>)
      modifies this`queued
      ensures pending == Fresh(old(queued), gids)
      ensures queued == old(queued) + Elements(pending)
    {
      pending := [];
      for i := 0 to |gids|
        invariant pending == Fresh(old(queued), gids[..i]) && queued == old(queued) + Elements(pending)
      {
        assert gids[..i + 1][..i] == gids[..i];
        if gids[i] == "" || gids[i] in queued {
          continue;
        }
        queued := queued + {gids[i]};
        pending := pending + [gids[i]];
      }
      assert gids[..|gids|] == gids;
    }

    method UnmarkMany(gids: seq<string>)
      modifies this`queued
      ensures queued == old(queued) - Elements(gids)
    {
      for i := 0 to |gids|
        invariant queued == old(queued) - Elements(gids[..i])
      {
        queued := queued - {gids[i]};
      }
      assert gids[..|gids|] == gids;
    }

    /** An enqueue that nobody interrupts: a failure leaves no trace. */
    method EnqueueMany(gids: seq<string>, contextOver: bool) returns (ok: bool)
      modifies this
      ensures ok ==>
                && queued == old(queued) + Elements(Fresh(old(queued), gids))
                && queue == old(queue) + Batch(Fresh(old(queued), gids))
      ensures !ok ==> queued == old(queued) && queue == old(queue)
      ensures !ok && !contextOver ==> |queue| >= 128 && exists g :: g in gids && g != "" && g !in queued
      ensures |old(queue)| <= 128 ==> |queue| <= 128
      ensures ok ==> HasRoom(old(queued), old(queue), gids)
      ensures !contextOver && HasRoom(old(queued), old(queue), gids) ==> ok
    {
      var pending := MarkMany(gids);
      FreshMeans(old(queued), gids);
      assert old(queued) + Elements(pending) - Elements(pending) == old(queued);
      if pending == [] {
        return true;
      }
      var giveUp: bool := *;
      if |queue| < CAPACITY && !(contextOver && giveUp) {
        queue := queue + [pending];
        return true;
      }
      UnmarkMany(pending);
      ok := false;
    }
  }

  // ----- Start -----

  /** Queued rows, of one source if one is named. */
  function Waiting(t: Tables, source: Option<string>): set<string> {
    set g | g in t.tasks && t.tasks[g].state == Queued && (source.None? || t.tasks[g].source == source.value)
  }

  function WaitingIn(t: Tables, resume: Option<seq<string>>): set<string> {
    set g | g in t.tasks && t.tasks[g].state == Queued && (resume.None? || t.tasks[g].source in resume.value)
  }

  /** The sources whose running rows are queued again; an empty list means all of them. */
  function Rescued(t: Tables, resume: Option<seq<string>>): set<string> {
    if resume.Some? && resume.value != [] then Elements(resume.value) else AllSources(t)
  }

  /** The rows that a new manager should run. */
  function Resumed(t: Tables, resume: Option<seq<string>>): set<string> {
    set g | g in t.tasks && IsActive(t.tasks[g].state) && (resume.None? || t.tasks[g].source in resume.value)
  }

  method ListJobs(repository: Repository, source: Option<string>) returns (gids: seq<string>)
    ensures Elements(gids) == Waiting(repository.View(), source)
  {
    gids := [];
    var left := Waiting(repository.View(), source);
    while left != {}
      invariant left <= Waiting(repository.View(), source)
      invariant Elements(gids) == Waiting(repository.View(), source) - left
      decreases |left|
    {
      var g :| g in left;
      left := left - {g};
      assert Elements(gids + [g]) == Elements(gids) + {g};
      gids := gids + [g];
    }
  }

  method ListResumed(repository: Repository, resume: Option<seq<string>>) returns (gids: seq<string>)
    ensures Elements(gids) == WaitingIn(repository.View(), resume)
  {
    if resume.None? {
      gids := ListJobs(repository, None);
      return;
    }
    var sources := resume.value;
    gids := [];
    for i := 0 to |sources|
      invariant Elements(gids) == WaitingIn(repository.View(), Some(sources[..i]))
    {
      assert sources[..i + 1] == sources[..i] + [sources[i]];
      var more := ListJobs(repository, Some(sources[i]));
      assert Elements(gids + more) == Elements(gids) + Elements(more);
      gids := gids + more;
    }
    assert sources[..|sources|] == sources;
  }

  /**
   At start every running or queued row of a resumed source is accepted into one batch, once; only
   an ended context keeps it from being accepted.
   */
  method NewManager(repository: Repository, resume: Option<seq<string>>, contextOver: bool) returns (r: Option<Manager>)
    modifies repository
    ensures repository.View() == Recovered(old(repository.View()), Rescued(old(repository.View()), resume))
    ensures r.None? ==> contextOver
    ensures r.Some? ==>
              && fresh(r.value)
              && IsFirstBatch(r.value.queued, r.value.queue, Resumed(old(repository.View()), resume) - {""})
  {
    ghost var before := repository.View();
    repository.RecoverRunningJobsBySource(Rescued(repository.View(), resume));
    RecoveryQueues(before, resume);
    hide Fresh, Elements, Rescued, Recovered, Resumed, WaitingIn, IsFirstBatch;
    var manager := new Manager();
    var gids := ListResumed(repository, resume);
    FirstBatch(gids);
    var ok := manager.EnqueueMany(gids, contextOver);
    r := if ok then Some(manager) else None;
  }

  /** All of a set waits in one batch, each gid once; nothing waits if there is nothing. */
  ghost predicate IsFirstBatch(queued: set<string>, queue: seq<seq<string>>, resumed: set<string>) {
    && queued == resumed
    && (resumed == {} ==> queue == [])
    && (resumed != {} ==> |queue| == 1 && Elements(queue[0]) == resumed && forall g :: multiset(queue[0])[g] <= 1)
  }

  lemma FirstBatch(gids: seq<string>)
    ensures var pending := Fresh({}, gids);
            IsFirstBatch({} + Elements(pending), [] + Batch(pending), Elements(gids) - {""})
  {
    hide Fresh;
    FreshMeans({}, gids);
    var pending := Fresh({}, gids);
    assert {} + Elements(pending) == Elements(pending) == Elements(gids) - {} - {""};
    hide Elements;
    if pending != [] {
      assert ([] + [pending])[0] == pending;
    }
  }

  /** After the recovery the queued rows of the resumed sources are those that were active before. */
  lemma RecoveryQueues(t: Tables, resume: Option<seq<string>>)
    ensures var t' := Recovered(t, Rescued(t, resume));
            Resumed(t, resume) == WaitingIn(t', resume)
  {
    var t' := Recovered(t, Rescued(t, resume));
    forall g | g in t.tasks && IsActive(t.tasks[g].state) && (resume.None? || t.tasks[g].source in resume.value)
      ensures t'.tasks[g].state == Queued
    {
      assert t.tasks[g].source in AllSources(t);
    }
  }

  /** Every running row that the recovery queues again is among the resumed ones. */
  predicate ResumesRescued(t: Tables, resume: Option<seq<string>>) {
    forall g | g in t.tasks && t.tasks[g].state == Running && t.tasks[g].source in Rescued(t, resume) ::
      g in Resumed(t, resume)
  }

  /** Only an empty list of sources can queue a row again and not resume it. */
  lemma ResumesIffListed(resume: Option<seq<string>>)
    ensures (forall t :: ResumesRescued(t, resume)) <==> resume != Some([])
  {
    if resume == Some([]) {
      var t := Catalogue.EMPTY.(tasks := map["g" := Task("", "", "", Running, "")]);
      assert t.tasks["g"].source in Rescued(t, resume);
      assert !ResumesRescued(t, resume);
    }
  }

  // ----- Submission -----

  datatype SubmitError = Rejected(error: Catalogue.Error) | Refused

  /** What happens to the tables while rows are made: before each one, whatever others do. */
  function Script(jobs: seq<Job>, others: seq<seq<Call>>): seq<Call>
    requires |others| == |jobs|
  {
    if jobs == [] then []
    else
      var last := |jobs| - 1;
      Script(jobs[..last], others[..last]) + (others[last] + [CreateJob(jobs[last])])
  }

  /** The tables after the first rows and after what others did since. */
  ghost function Reached(t: Tables, jobs: seq<Job>, others: seq<seq<Call>>, n: nat): Tables
    requires n <= |jobs| == |others|
  {
    Run(t, Script(jobs[..n], others[..n]))
  }

  ghost function Before(t: Tables, jobs: seq<Job>, others: seq<seq<Call>>, i: nat): Tables
    requires i < |jobs| == |others|
  {
    Run(Reached(t, jobs, others, i), others[i])
  }

  ghost predicate AcceptedAt(t: Tables, jobs: seq<Job>, others: seq<seq<Call>>, i: nat)
    requires i < |jobs| == |others|
  {
    JobCreated(Before(t, jobs, others, i), jobs[i]).Ok?
  }

  /** The first so many jobs get their rows, and the next one is refused. */
  ghost predicate Makes(t: Tables, jobs: seq<Job>, others: seq<seq<Call>>, n: nat)
    requires |jobs| == |others|
  {
    && n <= |jobs|
    && (forall i | 0 <= i < n :: AcceptedAt(t, jobs, others, i))
    && (n < |jobs| ==> !AcceptedAt(t, jobs, others, n))
  }

  lemma NextRow(t: Tables, jobs: seq<Job>, others: seq<seq<Call>>, i: nat)
    requires i < |jobs| == |others|
    ensures Reached(t, jobs, others, i + 1) == Apply(Before(t, jobs, others, i), CreateJob(jobs[i]))
  {
    hide Apply;
    var more := others[i] + [CreateJob(jobs[i])];
    assert jobs[..i + 1][..i] == jobs[..i] && others[..i + 1][..i] == others[..i];
    assert Script(jobs[..i + 1], others[..i + 1]) == Script(jobs[..i], others[..i]) + more;
    JobRun.RunsCompose(t, Script(jobs[..i], others[..i]), more);
    JobRun.RunsCompose(Reached(t, jobs, others, i), others[i], [CreateJob(jobs[i])]);
    hide Script;
    assert [CreateJob(jobs[i])][..0] == [];
  }

  function Gids(jobs: seq<Job>): seq<string> {
    seq(|jobs|, i requires 0 <= i < |jobs| => jobs[i].gid)
  }

  function SourceOf(job: Job): string {
    OrElse(job.source, "aria2")
  }

  predicate SameSlot(a: Job, b: Job) {
    IsActive(a.state) && IsActive(b.state) && SourceOf(a) == SourceOf(b) && Lower(a.infoHash) == Lower(b.infoHash)
  }

  /** What the tables before the batch and the earlier jobs of the batch must grant a job. */
  predicate Submittable(t: Tables, jobs: seq<Job>, i: nat)
    requires i < |jobs|
  {
    var job := jobs[i];
    && IsHash(Lower(job.infoHash)) && job.gid !in t.tasks
    && (IsActive(job.state) ==> !Occupied(t.tasks, job.gid, SourceOf(job), Lower(job.infoHash)))
    && forall j | 0 <= j < i :: jobs[j].gid != job.gid && !SameSlot(jobs[j], job)
  }

  predicate AllSubmittable(t: Tables, jobs: seq<Job>) {
    forall i | 0 <= i < |jobs| :: Submittable(t, jobs, i)
  }

  function RowOf(job: Job): Task {
    Task(Lower(job.infoHash), SourceOf(job), job.magnetURI, job.state, "")
  }

  /** The old rows and one for every job of the batch. */
  ghost predicate HasRows(t: Tables, jobs: seq<Job>, t': Tables) {
    && t.tasks.Keys <= t'.tasks.Keys && (forall g | g in t.tasks :: t'.tasks[g] == t.tasks[g])
    && (forall i | 0 <= i < |jobs| :: jobs[i].gid in t'.tasks && t'.tasks[jobs[i].gid] == RowOf(jobs[i]))
    && (forall g | g in t'.tasks :: g in t.tasks || exists i | 0 <= i < |jobs| :: jobs[i].gid == g)
  }

  lemma OccupiedByBatch(t: Tables, jobs: seq<Job>, t': Tables, job: Job)
    requires HasRows(t, jobs, t') && IsActive(job.state)
    ensures Occupied(t'.tasks, job.gid, SourceOf(job), Lower(job.infoHash)) <==>
            || Occupied(t.tasks, job.gid, SourceOf(job), Lower(job.infoHash))
            || exists i | 0 <= i < |jobs| :: jobs[i].gid != job.gid && SameSlot(jobs[i], job)
  {
    var source, hash := SourceOf(job), Lower(job.infoHash);
    hide SourceOf, Lower;
    if i :| 0 <= i < |jobs| && jobs[i].gid != job.gid && SameSlot(jobs[i], job) {
      assert t'.tasks[jobs[i].gid] == RowOf(jobs[i]);
    }
    if Occupied(t.tasks, job.gid, source, hash) {
      var g :| g in t.tasks && g != job.gid && t.tasks[g].source == source && t.tasks[g].torrent == hash
               && IsActive(t.tasks[g].state);
      assert t'.tasks[g] == t.tasks[g];
    }
  }

  /** The call leaves the tasks alone. */
  ghost predicate Apart(call: Call) {
    forall t :: Apply(t, call).tasks == t.tasks
  }

  ghost predicate AllApart(others: seq<seq<Call>>) {
    forall i, c | 0 <= i < |others| && c in others[i] :: Apart(c)
  }

  lemma {:induction false} ApartKeepsTasks(t: Tables, calls: seq<Call>)
    requires forall c | c in calls :: Apart(c)
    ensures Run(t, calls).tasks == t.tasks
  {
    if calls != [] {
      hide Apply;
      var before := calls[..|calls| - 1];
      forall c | c in before ensures Apart(c) {
        assert c in calls;
      }
      ApartKeepsTasks(t, before);
      assert Apart(calls[|calls| - 1]);
    }
  }

  /**
   While the others leave the tasks alone, a batch gets its rows up to the first job whose hash is no hash,
   whose gid is taken, or whose source and hash an active row or an earlier job of the batch holds.
   */
  lemma {:induction false} AcceptedMeans(t: Tables, jobs: seq<Job>, others: seq<seq<Call>>, n: nat)
    requires n <= |jobs| == |others| && AllApart(others)
    ensures (forall i | 0 <= i < n :: AcceptedAt(t, jobs, others, i)) <==> AllSubmittable(t, jobs[..n])
    ensures AllSubmittable(t, jobs[..n]) ==> HasRows(t, jobs[..n], Reached(t, jobs, others, n))
  {
    hide *;
    if n == 0 {
      NothingAccepted(t, jobs, others);
    } else {
      var i := n - 1;
      AcceptedMeans(t, jobs, others, i);
      LastSubmittable(t, jobs[..n]);
      assert jobs[..n][..i] == jobs[..i];
      if AllSubmittable(t, jobs[..i]) {
        OneAccepted(t, jobs, others, i);
      }
    }
  }

  lemma NothingAccepted(t: Tables, jobs: seq<Job>, others: seq<seq<Call>>)
    requires |jobs| == |others|
    ensures AllSubmittable(t, jobs[..0]) && HasRows(t, jobs[..0], Reached(t, jobs, others, 0))
  {
    NoRows(t, jobs, others);
    hide Reached;
  }

  lemma OthersKeepRows(t: Tables, jobs: seq<Job>, before: Tables, calls: seq<Call>)
    requires HasRows(t, jobs, before) && forall c | c in calls :: Apart(c)
    ensures HasRows(t, jobs, Run(before, calls))
  {
    ApartKeepsTasks(before, calls);
    hide Run, Apart;
  }

  lemma AcceptedIs(t: Tables, jobs: seq<Job>, others: seq<seq<Call>>, i: nat)
    requires i < |jobs| == |others|
    ensures var created := JobCreated(Before(t, jobs, others, i), jobs[i]);
            && (AcceptedAt(t, jobs, others, i) <==> created.Ok?)
            && (created.Ok? ==> Reached(t, jobs, others, i + 1) == created.value)
    ensures Before(t, jobs, others, i) == Run(Reached(t, jobs, others, i), others[i])
  {
    NextRow(t, jobs, others, i);
    hide Reached, Run, JobCreated;
  }

  lemma OneAccepted(t: Tables, jobs: seq<Job>, others: seq<seq<Call>>, i: nat)
    requires i < |jobs| == |others| && AllApart(others) && HasRows(t, jobs[..i], Reached(t, jobs, others, i))
    ensures AcceptedAt(t, jobs, others, i) <==> Submittable(t, jobs[..i + 1], i)
    ensures AcceptedAt(t, jobs, others, i) ==> HasRows(t, jobs[..i + 1], Reached(t, jobs, others, i + 1))
  {
    assert forall c | c in others[i] :: Apart(c);
    hide *;
    OthersKeepRows(t, jobs[..i], Reached(t, jobs, others, i), others[i]);
    AcceptedIs(t, jobs, others, i);
    assert jobs[..i + 1][..i] == jobs[..i] && jobs[..i + 1][i] == jobs[i];
    var before := Before(t, jobs, others, i);
    OneMore(t, jobs[..i + 1], before);
    if AcceptedAt(t, jobs, others, i) {
      RowsGrow(t, jobs[..i + 1], before);
    }
  }

  /** So exactly the rows before the first job that is not submittable are made. */
  lemma MadeMeans(t: Tables, jobs: seq<Job>, others: seq<seq<Call>>, n: nat)
    requires |jobs| == |others| && AllApart(others) && Makes(t, jobs, others, n)
    ensures AllSubmittable(t, jobs[..n]) && (n < |jobs| ==> !Submittable(t, jobs, n))
    ensures HasRows(t, jobs[..n], Reached(t, jobs, others, n))
    ensures n == |jobs| <==> AllSubmittable(t, jobs)
  {
    hide HasRows, AcceptedAt, Submittable, AllApart;
    AcceptedMeans(t, jobs, others, n);
    assert jobs[..|jobs|] == jobs;
    if n < |jobs| {
      AcceptedMeans(t, jobs, others, n + 1);
      LastSubmittable(t, jobs[..n + 1]);
      assert jobs[..n + 1][..n] == jobs[..n];
      SubmittableAt(t, jobs, n + 1, n);
    }
  }

  /**
   Whatever the others do, a row that was made stays queued through any further calls exactly when none of
   them takes it away or to another state.
   */
  lemma MadeStays(t: Tables, jobs: seq<Job>, others: seq<seq<Call>>, i: nat, later: seq<Call>)
    requires i < |jobs| == |others| && AcceptedAt(t, jobs, others, i) && jobs[i].state == Queued
    ensures var made, gid := Reached(t, jobs, others, i + 1), jobs[i].gid;
            && IsQueued(made, gid)
            && ((forall k | 0 <= k <= |later| :: QueuedAt(made, later, gid, k)) <==>
                (forall k | 0 <= k < |later| :: !DequeuedAt(made, later, gid, k)))
  {
    NextRow(t, jobs, others, i);
    OneRow(Before(t, jobs, others, i), jobs[i]);
    hide Reached, Before, JobCreated;
    QueuedAlways(Reached(t, jobs, others, i + 1), later, jobs[i].gid, |later|);
  }

  lemma SubmittableAt(t: Tables, jobs: seq<Job>, n: nat, i: nat)
    requires i < n <= |jobs|
    ensures Submittable(t, jobs[..n], i) == Submittable(t, jobs, i)
  {
    forall j | 0 <= j <= i ensures jobs[..n][j] == jobs[j] {
    }
    hide IsHash, Lower, Occupied, SameSlot;
  }

  lemma LastSubmittable(t: Tables, jobs: seq<Job>)
    requires jobs != []
    ensures AllSubmittable(t, jobs) <==> AllSubmittable(t, jobs[..|jobs| - 1]) && Submittable(t, jobs, |jobs| - 1)
  {
    var last := |jobs| - 1;
    forall i | 0 <= i < last ensures Submittable(t, jobs[..last], i) == Submittable(t, jobs, i) {
      SubmittableAt(t, jobs, last, i);
    }
    hide Submittable;
  }

  lemma OneMore(t: Tables, jobs: seq<Job>, before: Tables)
    requires jobs != [] && HasRows(t, jobs[..|jobs| - 1], before)
    ensures JobCreated(before, jobs[|jobs| - 1]).Ok? <==> Submittable(t, jobs, |jobs| - 1)
  {
    var last := |jobs| - 1;
    var job := jobs[last];
    hide Occupied, SameSlot, RowOf, Lower, IsHash;
    if IsActive(job.state) {
      OccupiedByBatch(t, jobs[..last], before, job);
    } else {
      forall j | 0 <= j < last ensures !SameSlot(jobs[j], job) {
        NoSlot(jobs[j], job);
      }
    }
    forall j | 0 <= j < last ensures jobs[..last][j] == jobs[j] && jobs[j].gid in before.tasks {
    }
  }

  lemma NoSlot(a: Job, b: Job)
    requires !IsActive(b.state)
    ensures !SameSlot(a, b)
  {
  }

  lemma OneRow(t: Tables, job: Job)
    requires JobCreated(t, job).Ok?
    ensures job.gid !in t.tasks && JobCreated(t, job).value.tasks == t.tasks[job.gid := RowOf(job)]
  {
  }

  lemma RowsGrow(t: Tables, jobs: seq<Job>, before: Tables)
    requires jobs != [] && HasRows(t, jobs[..|jobs| - 1], before) && JobCreated(before, jobs[|jobs| - 1]).Ok?
    ensures HasRows(t, jobs, JobCreated(before, jobs[|jobs| - 1]).value)
  {
    var last := |jobs| - 1;
    var t' := JobCreated(before, jobs[last]).value;
    OneRow(before, jobs[last]);
    hide JobCreated, RowOf;
    forall i | 0 <= i < |jobs| ensures jobs[i].gid in t'.tasks && t'.tasks[jobs[i].gid] == RowOf(jobs[i]) {
      assert i < last ==> jobs[..last][i] == jobs[i];
    }
    forall g | g in t'.tasks && g !in t.tasks ensures exists i | 0 <= i < |jobs| :: jobs[i].gid == g {
      if g in before.tasks {
        var i :| 0 <= i < last && jobs[..last][i].gid == g;
        assert jobs[i].gid == g;
      } else {
        assert jobs[last].gid == g;
      }
    }
  }

  lemma GidsSnoc(jobs: seq<Job>, i: nat)
    requires i < |jobs|
    ensures Gids(jobs[..i + 1]) == Gids(jobs[..i]) + [jobs[i].gid]
  {
  }

  /** The loop that makes the rows, with whatever others do before each one. */
  method CreateAll(repository: Repository, jobs: seq<Job>, others: seq<seq<Call>>)
    returns (r: Result<seq<string>, Catalogue.Error>, ghost made: nat)
    requires |jobs| == |others|
    modifies repository
    ensures Makes(old(repository.View()), jobs, others, made)
    ensures repository.View() == LeftBy(old(repository.View()), jobs, others, made)
    ensures r.Ok? <==> made == |jobs|
    ensures r.Ok? ==> r.value == Gids(jobs)
    ensures r.Err? ==> Err(r.error) == JobCreated(Before(old(repository.View()), jobs, others, made), jobs[made])
  {
    ghost var t := repository.View();
    hide JobCreated, Gids, Run, Script;
    var gids: seq<string> := [];
    NoRows(t, jobs, others);
    for i := 0 to |jobs|
      invariant repository.View() == Reached(t, jobs, others, i)
      invariant forall k | 0 <= k < i :: AcceptedAt(t, jobs, others, k)
      invariant gids == Gids(jobs[..i])
    {
      JobRun.PerformAll(repository, others[i]);
      NextRow(t, jobs, others, i);
      var done := repository.CreateJob(jobs[i]);
      if done.Err? {
        return Err(done.error), i;
      }
      GidsSnoc(jobs, i);
      gids := gids + [jobs[i].gid];
    }
    assert jobs[..|jobs|] == jobs;
    return Ok(gids), |jobs|;
  }

  /** The tables when the loop ends, whether or not it got through. */
  ghost function LeftBy(t: Tables, jobs: seq<Job>, others: seq<seq<Call>>, made: nat): Tables
    requires made <= |jobs| == |others|
  {
    if made == |jobs| then Reached(t, jobs, others, made) else Before(t, jobs, others, made)
  }

  lemma NoRows(t: Tables, jobs: seq<Job>, others: seq<seq<Call>>)
    requires |jobs| == |others|
    ensures Reached(t, jobs, others, 0) == t && Gids(jobs[..0]) == []
  {
    assert |Gids(jobs[..0])| == 0;
  }

  /**
   The rows of a batch are made before the batch is enqueued, and others may write between them. It
   succeeds when every row is made and the channel takes it; what was made is unmarked when it fails.
   */
  method SubmitNew(repository: Repository, manager: Manager, jobs: seq<Job>, others: seq<seq<Call>>, contextOver: bool)
    returns (r: Result<seq<string>, SubmitError>, ghost made: nat)
    requires |jobs| == |others|
    modifies repository, manager
    ensures Makes(old(repository.View()), jobs, others, made)
    ensures repository.View() == LeftBy(old(repository.View()), jobs, others, made)
    ensures r.Ok? ==> r.value == Gids(jobs)
    ensures r.Ok? ==> manager.queued == old(manager.queued) + Elements(Fresh(old(manager.queued), r.value))
    ensures r.Ok? ==> manager.queue == old(manager.queue) + Batch(Fresh(old(manager.queued), r.value))
    ensures r.Err? ==> manager.queued == old(manager.queued) && manager.queue == old(manager.queue)
    ensures var fits := made == |jobs| && HasRoom(old(manager.queued), old(manager.queue), Gids(jobs));
            (r.Ok? ==> fits) && (fits && !contextOver ==> r.Ok?)
  {
    hide *;
    var gids;
    gids, made := CreateAll(repository, jobs, others);
    if gids.Err? {
      return Err(Rejected(gids.error)), made;
    }
    var ok := manager.EnqueueMany(gids.value, contextOver);
    r := if ok then Ok(gids.value) else Err(Refused);
  }

  // ----- Interleavings -----

  /**
   Callers between their marking and their send, callers whose send failed and who have yet to take their
   marks back, the channel, and the batch the worker holds.
   */
  datatype System = System(queued: set<string>, senders: seq<seq<string>>, declined: seq<seq<string>>,
                           queue: seq<seq<string>>, held: Option<seq<string>>, contextOver: bool, stopped: bool,
                           accepted: seq<seq<string>>, ran: seq<seq<string>>)

  const START := System({}, [], [], [], None, false, false, [], [])

  datatype Event =
    | Enqueue(gids: seq<string>) | Send(i: nat) | Decline(i: nat) | Unmark(i: nat)
    | Take | Release | EndContext | Stop

  predicate Enabled(s: System, e: Event) {
    match e
    case Enqueue(_) => true
    case Send(i) => i < |s.senders| && |s.queue| < CAPACITY
    case Decline(i) => i < |s.senders| && (s.contextOver || |s.queue| >= CAPACITY)
    case Unmark(i) => i < |s.declined|
    case Take => !s.stopped && s.held.None? && s.queue != []
    case Release => !s.stopped && s.held.Some?
    case EndContext => true
    case Stop => s.contextOver
  }

  function Without<T>(list: seq<T>, i: nat): seq<T>
    requires i < |list|
  {
    list[..i] + list[i + 1..]
  }

  function After(s: System, e: Event): System
    requires Enabled(s, e)
  {
    match e
    case Enqueue(gids) =>
      var pending := Fresh(s.queued, gids);
      if pending == [] then s
      else s.(queued := s.queued + Elements(pending), senders := s.senders + [pending])
    case Send(i) =>
      s.(senders := Without(s.senders, i), queue := s.queue + [s.senders[i]], accepted := s.accepted + [s.senders[i]])
    case Decline(i) => s.(senders := Without(s.senders, i), declined := s.declined + [s.senders[i]])
    case Unmark(i) => s.(declined := Without(s.declined, i), queued := s.queued - Elements(s.declined[i]))
    case Take => s.(held := Some(s.queue[0]), queue := s.queue[1..])
    case Release => s.(held := None, queued := s.queued - Elements(s.held.value), ran := s.ran + [s.held.value])
    case EndContext => s.(contextOver := true)
    case Stop => s.(stopped := true)
  }

  ghost predicate Legal(s: System, events: seq<Event>)
    decreases |events|
  {
    events == [] || (Enabled(s, events[0]) && Legal(After(s, events[0]), events[1..]))
  }

  ghost function Final(s: System, events: seq<Event>): System
    requires Legal(s, events)
    decreases |events|
  {
    if events == [] then s else Final(After(s, events[0]), events[1..])
  }

  /** How often some batches have a gid. */
  function Times(batches: seq<seq<string>>, gid: string): nat {
    if batches == [] then 0 else Times(batches[..|batches| - 1], gid) + multiset(batches[|batches| - 1])[gid]
  }

  lemma {:induction false} TimesAppend(a: seq<seq<string>>, b: seq<seq<string>>, gid: string)
    ensures Times(a + b, gid) == Times(a, gid) + Times(b, gid)
  {
    if b == [] {
      assert a + b == a;
    } else {
      assert (a + b)[..|a + b| - 1] == a + b[..|b| - 1];
      TimesAppend(a, b[..|b| - 1], gid);
    }
  }

  lemma TimesOne(batch: seq<string>, gid: string)
    ensures Times([batch], gid) == multiset(batch)[gid]
  {
    assert [batch][..0] == [];
  }

  lemma TimesWithout(batches: seq<seq<string>>, i: nat, gid: string)
    requires i < |batches|
    ensures Times(batches, gid) == Times(Without(batches, i), gid) + multiset(batches[i])[gid]
  {
    assert batches == batches[..i] + ([batches[i]] + batches[i + 1..]);
    TimesAppend(batches[..i], [batches[i]] + batches[i + 1..], gid);
    TimesAppend([batches[i]], batches[i + 1..], gid);
    TimesAppend(batches[..i], batches[i + 1..], gid);
    TimesOne(batches[i], gid);
  }

  function Held(s: System): seq<seq<string>> {
    if s.held.Some? then [s.held.value] else []
  }

  /** A gid is marked exactly when it waits, and then it waits in one place only. */
  ghost predicate Marked(s: System, gid: string) {
    (if gid in s.queued then 1 else 0) ==
    Times(s.senders, gid) + Times(s.declined, gid) + Times(s.queue, gid) + Times(Held(s), gid)
  }

  /** The marks are the disjoint union of what waits anywhere; what was accepted is run in order. */
  ghost predicate Conserved(s: System) {
    && (forall gid :: Marked(s, gid))
    && s.accepted == s.ran + Held(s) + s.queue
    && |s.queue| <= CAPACITY
  }

  lemma MarkedByEnqueue(s: System, gids: seq<string>, gid: string)
    requires Marked(s, gid)
    ensures Marked(After(s, Enqueue(gids)), gid)
  {
    var pending := Fresh(s.queued, gids);
    FreshMeans(s.queued, gids);
    hide Fresh;
    assert gid in pending <==> gid in Elements(pending);
    TimesAppend(s.senders, [pending], gid);
    TimesOne(pending, gid);
  }

  lemma MarkedBySend(s: System, e: Event, gid: string)
    requires Marked(s, gid) && Enabled(s, e) && (e.Send? || e.Decline?)
    ensures Marked(After(s, e), gid)
  {
    hide Times;
    TimesWithout(s.senders, e.i, gid);
    TimesAppend(if e.Send? then s.queue else s.declined, [s.senders[e.i]], gid);
    TimesOne(s.senders[e.i], gid);
  }

  lemma MarkedByUnmark(s: System, i: nat, gid: string)
    requires Marked(s, gid) && Enabled(s, Unmark(i))
    ensures Marked(After(s, Unmark(i)), gid)
  {
    hide Times;
    TimesWithout(s.declined, i, gid);
    assert gid in s.declined[i] <==> multiset(s.declined[i])[gid] > 0;
  }

  lemma MarkedByTake(s: System, gid: string)
    requires Marked(s, gid) && Enabled(s, Take)
    ensures Marked(After(s, Take), gid)
  {
    assert s.queue == [s.queue[0]] + s.queue[1..];
    TimesAppend([s.queue[0]], s.queue[1..], gid);
  }

  lemma MarkedByRelease(s: System, gid: string)
    requires Marked(s, gid) && Enabled(s, Release)
    ensures Marked(After(s, Release), gid)
  {
    TimesOne(s.held.value, gid);
    assert gid in s.held.value <==> multiset(s.held.value)[gid] > 0;
  }

  lemma MarkedStep(s: System, e: Event, gid: string)
    requires Marked(s, gid) && Enabled(s, e)
    ensures Marked(After(s, e), gid)
  {
    hide Times, Fresh;
    match e
    case Enqueue(gids) => MarkedByEnqueue(s, gids, gid);
    case Send(_) => MarkedBySend(s, e, gid);
    case Decline(_) => MarkedBySend(s, e, gid);
    case Unmark(i) => MarkedByUnmark(s, i, gid);
    case Take => MarkedByTake(s, gid);
    case Release => MarkedByRelease(s, gid);
    case EndContext =>
    case Stop =>
  }

  lemma Step(s: System, e: Event)
    requires Conserved(s) && Enabled(s, e)
    ensures Conserved(After(s, e))
  {
    forall gid ensures Marked(After(s, e), gid) {
      MarkedStep(s, e, gid);
    }
    hide Marked, Fresh;
    if e.Take? {
      assert s.queue == [s.queue[0]] + s.queue[1..];
    }
  }

  /** In every interleaving nothing that was accepted is lost, run twice or run out of order. */
  lemma {:induction false} QueueConserves(s: System, events: seq<Event>)
    requires Conserved(s) && Legal(s, events)
    ensures Conserved(Final(s, events))
    decreases |events|
  {
    if events != [] {
      Step(s, events[0]);
      QueueConserves(After(s, events[0]), events[1..]);
    }
  }

  /** Every gid runs once per acceptance, but for what the channel and the worker still hold. */
  lemma RunsPerAcceptance(events: seq<Event>, gid: string)
    requires Legal(START, events)
    ensures var s := Final(START, events);
            && Times(s.accepted, gid) == Times(s.ran, gid) + Times(Held(s), gid) + Times(s.queue, gid)
            && Times(s.ran, gid) <= Times(s.accepted, gid) <= Times(s.ran, gid) + 1
            && (s.queue == [] && s.held.None? ==> s.ran == s.accepted)
  {
    QueueConserves(START, events);
    var s := Final(START, events);
    TimesAppend(s.ran + Held(s), s.queue, gid);
    TimesAppend(s.ran, Held(s), gid);
    assert Marked(s, gid);
  }

  /** A refused caller takes back exactly the marks it made, whenever it does: everybody else's stay. */
  lemma RefusalIsExact(events: seq<Event>, i: nat, gid: string)
    requires Legal(START, events) && Enabled(Final(START, events), Unmark(i))
    ensures var s := Final(START, events);
            var s' := After(s, Unmark(i));
            && (gid in s.declined[i] ==> gid in s.queued && gid !in s'.queued)
            && (gid !in s.declined[i] ==> (gid in s'.queued <==> gid in s.queued))
            && Marked(s', gid)
  {
    QueueConserves(START, events);
    var s := Final(START, events);
    Step(s, Unmark(i));
    assert Marked(s, gid) && Marked(After(s, Unmark(i)), gid);
    TimesWithout(s.declined, i, gid);
    assert gid in s.declined[i] <==> multiset(s.declined[i])[gid] > 0;
  }
}
