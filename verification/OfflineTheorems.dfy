/**
 What module OfflineTasks keeps over whole runs: fetching refines reading the whole list,
 the snapshot is the newest listing, the scheduler loses no wake-up, and polling stays
 within its budget.
 */
module OfflineTheorems {
  import opened Texts
  import opened Wrappers
  import opened PollSchedule
  import opened OfflineTasks

  // ----- Fetching refines reading the whole list -----

  lemma {:induction false} LaterListingsKeepFirst(answers: seq<Answer>, n: nat, m: nat, key: string)
    requires n <= m <= |answers| && FirstListed(Listing(answers, n), key).Some?
    ensures FirstListed(Listing(answers, m), key) == FirstListed(Listing(answers, n), key)
  {
    if n < m {
      LaterListingsKeepFirst(answers, n, m - 1, key);
      FirstListedAppend(Listing(answers, m - 1), if answers[m - 1].Listed? then answers[m - 1].tasks else [], key);
    }
  }

  lemma {:induction false} FirstListedAppend(list: seq<Task>, more: seq<Task>, key: string)
    requires FirstListed(list, key).Some?
    ensures FirstListed(list + more, key) == FirstListed(list, key)
  {
    if more == [] {
      assert list + more == list;
    } else {
      assert (list + more)[..|list| + |more| - 1] == list + more[..|more| - 1];
      FirstListedAppend(list, more[..|more| - 1], key);
    }
  }

  /**
   With a constant page count and no error the pages read are the shortest covering prefix, or
   all, and what is found is what reading every page would find first.
   */
  lemma FetchRefinesWholeList(targets: set<string>, answers: seq<Answer>, r: Fetched, count: int)
    requires ReadsPages(targets, answers, r)
    requires forall p | 0 <= p < |answers| :: answers[p].Listed? && answers[p].pageCount == count
    requires 1 <= |answers| && count <= |answers|
    ensures !r.failed
    ensures var all := if count <= 0 then 1 else count;
            && r.pages <= all
            && (forall p | 0 <= p < r.pages :: Missing(targets, Listing(answers, p)) != {})
            && (r.pages < all ==> Missing(targets, Listing(answers, r.pages)) == {})
            && r.found == FirstOccurrences(targets, Listing(answers, all))
  {
    hide FirstListed, Listing;
    var all := if count <= 0 then 1 else count;
    var last := answers[all - 1];
    if r.pages < all {
      forall k | k in targets
        ensures FirstListed(Listing(answers, all), k) == FirstListed(Listing(answers, r.pages), k)
      {
        assert k !in Missing(targets, Listing(answers, r.pages));
        LaterListingsKeepFirst(answers, r.pages, all, k);
      }
    }
  }

  // ----- The snapshot is the newest listing -----

  /** Two tasks that a waiter cannot tell apart. */
  predicate SameView(a: Task, b: Task) {
    a.status == b.status && a.progress == b.progress && a.resultId == b.resultId
  }

  /**
   After a key is forgotten, its entry shows the state last listed with the highest update time,
   at position `i` of everything listed since; a key never listed has no entry.
   */
  lemma {:induction false} SnapshotIsNewest(before: map<string, Task>, list: seq<Task>, key: string) returns (i: int)
    requires key != "" && key !in before
    ensures i == -1 <==> key !in NotedAll(before, list)
    ensures i == -1 ==> forall j | 0 <= j < |list| :: KeyOf(list[j]) != key
    ensures i != -1 ==>
              && 0 <= i < |list| && KeyOf(list[i]) == key
              && KeyOf(NotedAll(before, list)[key]) == key
              && list[i].lastUpdate == NotedAll(before, list)[key].lastUpdate
              && SameView(list[i], NotedAll(before, list)[key])
              && (forall j | 0 <= j < |list| && KeyOf(list[j]) == key :: list[j].lastUpdate <= list[i].lastUpdate)
              && (forall j | i < j < |list| && KeyOf(list[j]) == key :: list[j].lastUpdate < list[i].lastUpdate)
  {
    if list == [] {
      i := -1;
    } else {
      hide KeyOf;
      var n := |list| - 1;
      i := SnapshotIsNewest(before, list[..n], key);
      if KeyOf(list[n]) == key && (i == -1 || list[n].lastUpdate >= list[i].lastUpdate) {
        i := n;
      }
    }
  }

  /**
   A record shows its task or the state last listed with the highest update time, whichever is newer, at
   position `i` of the list.
   */
  lemma {:induction false} RecordIsNewest(rs: Records, list: seq<Task>, key: string) returns (i: int)
    requires key != "" && key in rs && rs[key].task.infoHash != ""
    ensures key in RefreshedAll(rs, list)
    ensures var now, was := RefreshedAll(rs, list)[key].task, rs[key].task;
            && now.infoHash != "" && -1 <= i < |list|
            && (i == -1 ==> now == was && forall j | 0 <= j < |list| && KeyOf(list[j]) == key ::
                              list[j].lastUpdate < was.lastUpdate)
            && (i != -1 ==>
                  && KeyOf(list[i]) == key && list[i].lastUpdate >= was.lastUpdate
                  && list[i].lastUpdate == now.lastUpdate && SameView(list[i], now)
                  && (forall j | 0 <= j < |list| && KeyOf(list[j]) == key :: list[j].lastUpdate <= list[i].lastUpdate)
                  && (forall j | i < j < |list| && KeyOf(list[j]) == key :: list[j].lastUpdate < list[i].lastUpdate))
  {
    i := -1;
    if list != [] {
      var n := |list| - 1;
      i := RecordIsNewest(rs, list[..n], key);
      if KeyOf(list[n]) == key && list[n].lastUpdate >= (if i == -1 then rs[key].task else list[i]).lastUpdate {
        i := n;
      }
    }
  }

  /** Pages of any fetches, and invalidations, in the order in which they get the lock. */
  datatype SnapshotEvent = Page(tasks: seq<Task>, at: int) | Forget(hashes: seq<string>)

  predicate Forgets(hashes: seq<string>, key: string) {
    hashes == [] || Mentions(hashes, key)
  }

  function StampsAfter(events: seq<SnapshotEvent>): map<string, int> {
    if events == [] then map[]
    else
      var before := StampsAfter(events[..|events| - 1]);
      match events[|events| - 1]
      case Page(tasks, at) => Stamped(before, tasks, at)
      case Forget(hashes) => map k | k in before && !Forgets(hashes, k) :: before[k]
  }

  predicate ListsKey(e: SnapshotEvent, key: string) {
    e.Page? && exists i | 0 <= i < |e.tasks| :: KeyOf(e.tasks[i]) == key
  }

  /** The last page with the key, which nobody has forgotten since. */
  predicate LastListed(events: seq<SnapshotEvent>, i: int, key: string) {
    && 0 <= i < |events| && ListsKey(events[i], key)
    && forall j | i < j < |events| ::
         !ListsKey(events[j], key) && (events[j].Forget? ==> !Forgets(events[j].hashes, key))
  }

  /** A stamp is the time of the last page with the key; there is one exactly if there is such a page. */
  lemma {:induction false} StampTells(events: seq<SnapshotEvent>, key: string)
    ensures key in StampsAfter(events) <==> exists i :: LastListed(events, i, key)
    ensures forall i | LastListed(events, i, key) ::
              key in StampsAfter(events) && StampsAfter(events)[key] == events[i].at
  {
    if events != [] {
      var n := |events| - 1;
      StampTells(events[..n], key);
      hide StampsAfter, ListsKey, Forgets, Mentions;
      StampNext(events, key);
      forall i | 0 <= i < n ensures LastListed(events, i, key) <==>
                                      LastListed(events[..n], i, key) && !ListsKey(events[n], key)
                                      && (events[n].Forget? ==> !Forgets(events[n].hashes, key))
      {
        if LastListed(events, i, key) {
          assert forall j | i < j < n :: events[..n][j] == events[j];
          assert events[..n][i] == events[i];
        }
      }
      assert LastListed(events, n, key) <==> ListsKey(events[n], key);
    }
  }

  lemma StampNext(events: seq<SnapshotEvent>, key: string)
    requires events != []
    ensures var n := |events| - 1;
            var before, after := StampsAfter(events[..n]), StampsAfter(events);
            if ListsKey(events[n], key) then key in after && after[key] == events[n].at
            else if events[n].Forget? && Forgets(events[n].hashes, key) then key !in after
            else (key in after <==> key in before) && (key in after ==> after[key] == before[key])
  {
    var last := events[|events| - 1];
    hide KeyOf;
    if last.Page? {
      StampedMeans(StampsAfter(events[..|events| - 1]), last.tasks, last.at);
    }
  }

  /** What the snapshot answers with an age limit was on a page within that age and not forgotten since. */
  lemma CachedIsRecent(events: seq<SnapshotEvent>, key: string, maxAge: int, now: int) returns (i: int)
    requires key in StampsAfter(events) && now - StampsAfter(events)[key] < maxAge
    ensures LastListed(events, i, key) && now - events[i].at < maxAge
  {
    StampTells(events, key);
    i :| LastListed(events, i, key);
  }

  function SnapshotAfter(events: seq<SnapshotEvent>): map<string, Task> {
    if events == [] then map[]
    else
      var before := SnapshotAfter(events[..|events| - 1]);
      match events[|events| - 1]
      case Page(tasks, _) => NotedAll(before, tasks)
      case Forget(hashes) => map k | k in before && !Forgets(hashes, k) :: before[k]
  }

  /** Everything listed since the key was last forgotten. */
  function ListedSince(events: seq<SnapshotEvent>, key: string): seq<Task> {
    if events == [] then []
    else
      var before := ListedSince(events[..|events| - 1], key);
      match events[|events| - 1]
      case Page(tasks, _) => before + tasks
      case Forget(hashes) => if Forgets(hashes, key) then [] else before
  }

  predicate SameAt(a: map<string, Task>, b: map<string, Task>, key: string) {
    (key in a <==> key in b) && (key in a ==> a[key] == b[key])
  }

  lemma {:induction false} NotedAlike(a: map<string, Task>, b: map<string, Task>, before: seq<Task>, list: seq<Task>,
                                      key: string)
    requires SameAt(a, NotedAll(b, before), key)
    ensures SameAt(NotedAll(a, list), NotedAll(b, before + list), key)
  {
    if list == [] {
      assert before + list == before;
    } else {
      assert (before + list)[..|before + list| - 1] == before + list[..|list| - 1];
      NotedAlike(a, b, before, list[..|list| - 1], key);
    }
  }

  lemma {:induction false} SnapshotOfListed(events: seq<SnapshotEvent>, key: string)
    ensures SameAt(SnapshotAfter(events), NotedAll(map[], ListedSince(events, key)), key)
  {
    if events != [] {
      var before, last := events[..|events| - 1], events[|events| - 1];
      SnapshotOfListed(before, key);
      if last.Page? {
        NotedAlike(SnapshotAfter(before), map[], ListedSince(before, key), last.tasks, key);
      }
    }
  }

  /**
   Over every interleaving of pages and invalidations a key's entry shows the state last listed with
   the highest update time since the key was last forgotten; a key not listed since has no entry.
   */
  lemma SnapshotIsNewestAlways(events: seq<SnapshotEvent>, key: string) returns (i: int)
    requires key != ""
    ensures var list, snapshot := ListedSince(events, key), SnapshotAfter(events);
            && (i == -1 <==> key !in snapshot)
            && (i == -1 ==> forall j | 0 <= j < |list| :: KeyOf(list[j]) != key)
            && (i != -1 ==>
                  && 0 <= i < |list| && KeyOf(list[i]) == key
                  && list[i].lastUpdate == snapshot[key].lastUpdate && SameView(list[i], snapshot[key])
                  && (forall j | 0 <= j < |list| && KeyOf(list[j]) == key :: list[j].lastUpdate <= list[i].lastUpdate)
                  && (forall j | i < j < |list| && KeyOf(list[j]) == key :: list[j].lastUpdate < list[i].lastUpdate))
  {
    SnapshotOfListed(events, key);
    i := SnapshotIsNewest(map[], ListedSince(events, key), key);
  }

  // ----- The scheduler and its callers as interleaved steps -----

  datatype Scheduler =
    | Deciding
    | Parked(next: Option<int>)
    | Polling(targets: set<string>)

  /**
   The polls of a record since its epoch began, by the time since the epoch's own reading of the clock;
   the earliest that the first of them can be; and how old that reading was when the epoch began.
   */
  datatype Epoch = Epoch(polls: seq<int>, floor: int, lag: int)

  /** `unsignalled` counts callers between their unlock and their signal, `stepped` is when the scheduler last acted. */
  datatype System = System(
    clock: int, records: Records, token: bool, unsignalled: nat, scheduler: Scheduler, stepped: int,
    epochs: map<string, Epoch>)

  datatype Event =
    | Tick(to: int)
    | Wait(key: string, waiter: nat, current: Task, readAt: int)
    | Restart(hashes: seq<string>, readAt: int)
    | Invalidate
    | ListTask(task: Task)
    | Leave(key: string, waiter: nat)
    | Receive(key: string, waiter: nat)
    | Signal
    | Decide(readAt: int, next: Option<int>, targets: set<string>)
    | FinishPoll(readAt: int, found: map<string, Task>, failed: bool)
    | TakeToken
    | TimerFires

  /** The result that waits for a waiter. */
  function Mailbox(s: System, key: string, waiter: nat): Option<PollResult> {
    if key in s.records && waiter in s.records[key].waiters then s.records[key].waiters[waiter] else None
  }

  function Emptied(r: Record, waiter: nat): Record {
    r.(waiters := r.waiters[waiter := None])
  }

  function Start(clock: int): System {
    System(clock, map[], false, 0, Deciding, clock, map[])
  }

  /**
   Clocks are read before the lock is taken, so a reading may be old. The scheduler is one goroutine:
   its readings come after its own step before.
   */
  ghost predicate Enabled(s: System, e: Event) {
    match e
    case Tick(to) => to >= s.clock
    case Wait(key, waiter, _, readAt) => readAt <= s.clock && (key in s.records ==> waiter !in s.records[key].waiters)
    case Restart(_, readAt) => readAt <= s.clock
    case Invalidate => true
    case ListTask(_) => true
    case Leave(_, _) => true
    case Receive(key, waiter) => Mailbox(s, key, waiter).Some?
    case Signal => s.unsignalled > 0
    case Decide(readAt, next, targets) =>
      s.scheduler.Deciding? && s.stepped <= readAt <= s.clock && Scheduled(s.records, readAt, next, targets)
    case FinishPoll(readAt, _, _) => s.scheduler.Polling? && s.stepped <= readAt <= s.clock
    case TakeToken => s.scheduler.Parked? && s.token
    case TimerFires => s.scheduler.Parked? && s.scheduler.next.Some? && s.scheduler.next.value <= s.clock
  }

  ghost function After(b: Bounds, s: System, e: Event): System
    requires Enabled(s, e)
  {
    match e
    case Tick(to) => s.(clock := to)
    case Wait(key, waiter, current, readAt) =>
      s.(records := Registered(s.records, key, waiter, current, readAt, b),
         epochs := if key in s.epochs then s.epochs else s.epochs[key := NewEpochAt(b, s, key, readAt)],
         unsignalled := s.unsignalled + 1)
    case Restart(hashes, readAt) =>
      s.(records := Restarted(s.records, hashes, readAt, b),
         epochs := map k | k in s.epochs ::
                     if Mentions(hashes, k) then NewEpochAt(b, s, k, readAt) else s.epochs[k],
         unsignalled := s.unsignalled + 1)
    case Invalidate => s.(unsignalled := s.unsignalled + 1)
    case ListTask(task) => s.(records := Refreshed(s.records, task))
    case Leave(key, waiter) =>
      s.(records := Unregistered(s.records, key, waiter), unsignalled := s.unsignalled + 1)
    case Receive(key, waiter) =>
      s.(records := s.records[key := Emptied(s.records[key], waiter)])
    case Signal => s.(token := true, unsignalled := s.unsignalled - 1)
    case Decide(readAt, next, targets) =>
      s.(scheduler := if targets != {} then Polling(targets) else Parked(next), stepped := s.clock)
    case FinishPoll(readAt, found, failed) =>
      s.(records := Published(s.records, s.scheduler.targets, found, failed, readAt, b),
         epochs := map k | k in s.epochs ::
                     if k in s.scheduler.targets && k in s.records
                     then s.epochs[k].(polls := s.epochs[k].polls + [readAt - s.records[k].startedAt])
                     else s.epochs[k],
         scheduler := Deciding, stepped := s.clock)
    case TakeToken => s.(token := false, scheduler := Deciding, stepped := s.clock)
    case TimerFires => s.(scheduler := Deciding, stepped := s.clock)
  }

  predicate UnderWay(s: System, key: string) {
    s.scheduler.Polling? && key in s.scheduler.targets
  }

  /** A poll under way ends after the scheduler's last step; any other waits for the first deadline. */
  function NewEpochAt(b: Bounds, s: System, key: string, readAt: int): Epoch {
    Epoch([], if UnderWay(s, key) then s.stepped - readAt else Interval(b, 0), s.clock - readAt)
  }

  ghost predicate Legal(b: Bounds, s: System, events: seq<Event>)
    decreases |events|
  {
    events == [] || (Enabled(s, events[0]) && Legal(b, After(b, s, events[0]), events[1..]))
  }

  ghost function Final(b: Bounds, s: System, events: seq<Event>): System
    requires Legal(b, s, events)
    decreases |events|
  {
    if events == [] then s else Final(b, After(b, s, events[0]), events[1..])
  }

  /** Nothing waited for comes due before the scheduler wakes, unless a wake-up is on its way. */
  ghost predicate NoLostWakeup(s: System) {
    s.scheduler.Parked? ==>
      || s.token
      || s.unsignalled > 0
      || forall k | Waited(s.records, k) ::
           s.scheduler.next.Some? && s.scheduler.next.value <= s.records[k].nextPollAt
  }

  function NextDue(b: Bounds, polls: seq<int>): int {
    if polls == [] then Interval(b, 0) else polls[|polls| - 1] + Interval(b, polls[|polls| - 1])
  }

  /** The first poll of an epoch has not come yet, or it came no earlier than it could. */
  predicate FirstKept(b: Bounds, s: System, k: string)
    requires k in s.records && k in s.epochs
  {
    var r, e := s.records[k], s.epochs[k];
    if e.polls != [] then e.polls[0] >= e.floor && (UnderWay(s, k) ==> r.nextPollAt <= s.stepped)
    else if UnderWay(s, k) then r.startedAt + e.floor <= s.stepped
    else e.floor == Interval(b, 0)
  }

  /** No poll but the first one was read before the epoch began. */
  predicate LagKept(s: System, k: string)
    requires k in s.records && k in s.epochs
  {
    var r, e := s.records[k], s.epochs[k];
    && 0 <= e.lag <= s.clock - r.startedAt
    && (e.polls != [] ==> r.startedAt + e.lag <= s.stepped)
    && forall i | 1 <= i < |e.polls| :: e.polls[i] >= e.lag
  }

  /** Deadlines and poll histories agree, and histories are spaced as the interval demands. */
  ghost predicate EpochKept(b: Bounds, s: System, k: string)
    requires k in s.records && k in s.epochs
  {
    var r, e := s.records[k], s.epochs[k];
    && Spaced(b, e.polls)
    && r.nextPollAt == r.startedAt + NextDue(b, e.polls)
    && FirstKept(b, s, k) && LagKept(s, k)
  }

  ghost predicate EpochsKept(b: Bounds, s: System) {
    && s.epochs.Keys == s.records.Keys && s.stepped <= s.clock
    && (s.scheduler.Polling? ==> s.scheduler.targets <= s.records.Keys)
    && forall k | k in s.records :: EpochKept(b, s, k)
  }

  lemma WakeupKept(b: Bounds, s: System, e: Event)
    requires NoLostWakeup(s) && Enabled(s, e)
    ensures NoLostWakeup(After(b, s, e))
  {
    var s' := After(b, s, e);
    if s'.scheduler.Parked? && !s'.token && s'.unsignalled == 0 {
      forall k | Waited(s'.records, k)
        ensures s'.scheduler.next.Some? && s'.scheduler.next.value <= s'.records[k].nextPollAt
      {
        if e.ListTask? {
          RefreshKeepsWaiting(s.records, e.task, k);
        } else {
          assert Waited(s.records, k);
        }
      }
    }
  }

  lemma RefreshKeepsWaiting(rs: Records, t: Task, k: string)
    ensures Waited(Refreshed(rs, t), k) <==> Waited(rs, k)
    ensures k in rs ==> k in Refreshed(rs, t)
    ensures k in rs ==> Refreshed(rs, t)[k].nextPollAt == rs[k].nextPollAt
    ensures k in rs ==> Refreshed(rs, t)[k].startedAt == rs[k].startedAt
    ensures Refreshed(rs, t).Keys == rs.Keys
  {
    if k in rs && k == KeyOf(t) {
      var boxes, offered := rs[k].waiters, Offer(rs[k].waiters, PollResult(Some(t), false));
      assert offered.Keys == boxes.Keys;
      assert (boxes == map[] <==> boxes.Keys == {}) && (offered == map[] <==> offered.Keys == {});
    }
  }

  lemma EpochsKeptBy(b: Bounds, s: System, e: Event)
    requires EpochsKept(b, s) && Enabled(s, e)
    ensures EpochsKept(b, After(b, s, e))
  {
    hide EpochsKept, Enabled, After;
    match e
    case Wait(_, _, _, _) => EpochsKeptByWait(b, s, e);
    case Restart(_, _) => EpochsKeptByRestart(b, s, e);
    case FinishPoll(_, _, _) => EpochsKeptByPoll(b, s, e);
    case Decide(_, _, _) => EpochsKeptByDecision(b, s, e);
    case ListTask(_) => EpochsKeptByListing(b, s, e);
    case _ => EpochsKeptByOther(b, s, e);
  }

  lemma EpochsKeptByListing(b: Bounds, s: System, e: Event)
    requires EpochsKept(b, s) && Enabled(s, e) && e.ListTask?
    ensures EpochsKept(b, After(b, s, e))
  {
    hide Interval, Spaced, NextDue, Refreshed;
    RefreshKeepsWaiting(s.records, e.task, "");
    forall k | k in After(b, s, e).records ensures EpochKept(b, After(b, s, e), k) {
      assert EpochKept(b, s, k);
      RefreshKeepsWaiting(s.records, e.task, k);
    }
  }

  lemma EpochsKeptByOther(b: Bounds, s: System, e: Event)
    requires EpochsKept(b, s) && Enabled(s, e)
    requires e.Tick? || e.Invalidate? || e.Leave? || e.Receive? || e.Signal? || e.TakeToken? || e.TimerFires?
    ensures EpochsKept(b, After(b, s, e))
  {
    hide Interval, Spaced, NextDue;
    forall k | k in After(b, s, e).records ensures EpochKept(b, After(b, s, e), k) {
      assert EpochKept(b, s, k);
    }
  }

  lemma EpochsKeptByWait(b: Bounds, s: System, e: Event)
    requires EpochsKept(b, s) && Enabled(s, e) && e.Wait?
    ensures EpochsKept(b, After(b, s, e))
  {
    hide Interval, Spaced;
    NoPollsYet(b);
    forall k | k in After(b, s, e).records ensures EpochKept(b, After(b, s, e), k) {
      if k in s.records {
        assert EpochKept(b, s, k);
      }
    }
  }

  lemma EpochsKeptByRestart(b: Bounds, s: System, e: Event)
    requires EpochsKept(b, s) && Enabled(s, e) && e.Restart?
    ensures EpochsKept(b, After(b, s, e))
  {
    hide Interval, Spaced, Mentions;
    NoPollsYet(b);
    forall k | k in After(b, s, e).records ensures EpochKept(b, After(b, s, e), k) {
      assert EpochKept(b, s, k);
    }
  }

  lemma EpochsKeptByDecision(b: Bounds, s: System, e: Event)
    requires EpochsKept(b, s) && Enabled(s, e) && e.Decide?
    ensures EpochsKept(b, After(b, s, e))
  {
    hide Interval, Spaced;
    forall k | k in After(b, s, e).records ensures EpochKept(b, After(b, s, e), k) {
      assert EpochKept(b, s, k);
    }
  }

  lemma NoPollsYet(b: Bounds)
    ensures Spaced(b, [])
  {
  }

  lemma EpochsKeptByPoll(b: Bounds, s: System, e: Event)
    requires EpochsKept(b, s) && Enabled(s, e) && e.FinishPoll?
    ensures EpochsKept(b, After(b, s, e))
  {
    hide Interval, Spaced, NextDue, FirstKept, LagKept, Offer;
    forall k | k in After(b, s, e).records ensures EpochKept(b, After(b, s, e), k) {
      assert EpochKept(b, s, k);
      PollKeepsEpoch(b, s, e, k);
    }
  }

  lemma PollKeepsEpoch(b: Bounds, s: System, e: Event, k: string)
    requires Enabled(s, e) && e.FinishPoll? && s.stepped <= s.clock && k in s.records && k in s.epochs
    requires EpochKept(b, s, k)
    ensures EpochKept(b, After(b, s, e), k)
  {
    hide Interval, Offer;
  }

  lemma {:induction false} KeptOverRuns(b: Bounds, s: System, events: seq<Event>)
    requires NoLostWakeup(s) && EpochsKept(b, s) && Legal(b, s, events)
    ensures NoLostWakeup(Final(b, s, events)) && EpochsKept(b, Final(b, s, events))
    decreases |events|
  {
    if events != [] {
      WakeupKept(b, s, events[0]);
      EpochsKeptBy(b, s, events[0]);
      KeptOverRuns(b, After(b, s, events[0]), events[1..]);
    }
  }

  /** No interleaving parks the scheduler past a due record without a wake-up on its way. */
  lemma NoWakeupLost(b: Bounds, clock: int, events: seq<Event>)
    requires Legal(b, Start(clock), events)
    ensures var s := Final(b, Start(clock), events);
            && NoLostWakeup(s)
            && forall k | Waited(s.records, k) && s.records[k].nextPollAt <= s.clock && s.scheduler.Parked? ::
                 Enabled(s, Signal) || Enabled(s, TakeToken) || Enabled(s, TimerFires)
  {
    KeptOverRuns(b, Start(clock), events);
  }

  // ----- Results reach their waiters -----

  /** The waiter neither leaves nor takes its result. */
  predicate StillWaits(events: seq<Event>, key: string, waiter: nat) {
    Leave(key, waiter) !in events && Receive(key, waiter) !in events
  }

  lemma ResultKept(b: Bounds, s: System, e: Event, key: string, waiter: nat)
    requires Enabled(s, e) && Mailbox(s, key, waiter).Some? && e != Leave(key, waiter) && e != Receive(key, waiter)
    ensures Mailbox(After(b, s, e), key, waiter) == Mailbox(s, key, waiter)
  {
    hide Interval, Newer, Mentions, Scheduled, NewEpochAt, Lower;
  }

  lemma {:induction false} ResultStays(b: Bounds, s: System, events: seq<Event>, key: string, waiter: nat)
    requires Legal(b, s, events) && Mailbox(s, key, waiter).Some? && StillWaits(events, key, waiter)
    ensures Mailbox(Final(b, s, events), key, waiter) == Mailbox(s, key, waiter)
    decreases |events|
  {
    if events != [] {
      assert events[0] in events && forall e | e in events[1..] :: e in events;
      ResultKept(b, s, events[0], key, waiter);
      ResultStays(b, After(b, s, events[0]), events[1..], key, waiter);
    }
  }

  /**
   Over every run from any state: when a poll of a record ends, each of its waiters has a result, its older one
   or that of the poll, and keeps it whatever else happens until it takes it or leaves.
   */
  lemma PollReachesWaiters(b: Bounds, s: System, readAt: int, found: map<string, Task>, failed: bool,
                           later: seq<Event>, key: string, waiter: nat)
    requires var end := FinishPoll(readAt, found, failed);
             && Enabled(s, end) && Legal(b, After(b, s, end), later) && StillWaits(later, key, waiter)
             && key in s.scheduler.targets && key in s.records && waiter in s.records[key].waiters
    ensures var s' := Final(b, After(b, s, FinishPoll(readAt, found, failed)), later);
            Mailbox(s', key, waiter) ==
            if Mailbox(s, key, waiter).Some? then Mailbox(s, key, waiter)
            else Some(PollResult(if key in found then Some(found[key]) else None, failed))
  {
    var end := FinishPoll(readAt, found, failed);
    var after := After(b, s, end);
    PublishedMeans(s.records, s.scheduler.targets, found, failed, readAt, b);
    assert after.records == Published(s.records, s.scheduler.targets, found, failed, readAt, b);
    hide Published, After, Enabled;
    ResultStays(b, after, later, key, waiter);
  }

  /** A listed task that is newer than a record reaches everybody who waits for it without a result. */
  lemma ListingReachesWaiters(b: Bounds, s: System, task: Task, later: seq<Event>, waiter: nat)
    requires Legal(b, After(b, s, ListTask(task)), later) && StillWaits(later, KeyOf(task), waiter)
    requires KeyOf(task) in s.records && Newer(task, s.records[KeyOf(task)].task)
    requires waiter in s.records[KeyOf(task)].waiters
    ensures var s' := Final(b, After(b, s, ListTask(task)), later);
            Mailbox(s', KeyOf(task), waiter) ==
            if Mailbox(s, KeyOf(task), waiter).Some? then Mailbox(s, KeyOf(task), waiter)
            else Some(PollResult(Some(task), false))
  {
    var after := After(b, s, ListTask(task));
    LastRefresh(s.records, task, KeyOf(task));
    assert after.records == Refreshed(s.records, task);
    hide Refreshed, After, Newer;
    ResultStays(b, after, later, KeyOf(task), waiter);
  }

  // ----- The poll budget -----

  /** At most so many polls of the key's epoch come before five minimum intervals. */
  predicate WithinBudget(b: Bounds, s: System, key: string, budget: nat) {
    key in s.epochs ==>
      forall i | 0 <= i < |s.epochs[key].polls| && s.epochs[key].polls[i] < 5 * b.Min() :: i < budget
  }

  /**
   Over every run the polls of an epoch are spaced by their intervals, all but the first come after the
   epoch began, and at most six come early.
   */
  lemma PollBudget(b: Bounds, clock: int, events: seq<Event>, key: string)
    requires b.Min() <= b.Max() && Legal(b, Start(clock), events)
    requires key in Final(b, Start(clock), events).epochs
    ensures var s := Final(b, Start(clock), events);
            && Spaced(b, s.epochs[key].polls)
            && (forall i | 1 <= i < |s.epochs[key].polls| :: s.epochs[key].polls[i] >= 0)
            && WithinBudget(b, s, key, 6)
  {
    KeptOverRuns(b, Start(clock), events);
    EpochWithinBudget(b, Final(b, Start(clock), events), key, 6);
  }

  /** The first poll can come so early and the epoch's reading is so recent that one poll too many fits in. */
  predicate Crowded(b: Bounds, floor: int, lag: int, budget: nat) {
    floor < (5 - budget) * b.Min() && lag < (6 - budget) * b.Min()
  }

  lemma EpochWithinBudget(b: Bounds, s: System, key: string, budget: nat)
    requires b.Min() <= b.Max() && EpochsKept(b, s) && key in s.epochs && budget >= 4
    ensures Spaced(b, s.epochs[key].polls) && forall i | 1 <= i < |s.epochs[key].polls| :: s.epochs[key].polls[i] >= 0
    ensures !Crowded(b, s.epochs[key].floor, s.epochs[key].lag, budget) ==> WithinBudget(b, s, key, budget)
    ensures budget >= 6 ==> WithinBudget(b, s, key, budget)
  {
    assert EpochKept(b, s, key);
    var e := s.epochs[key];
    forall i | budget <= i < |e.polls| && (budget >= 6 || !Crowded(b, e.floor, e.lag, budget))
      ensures e.polls[i] >= 5 * b.Min()
    {
      PollsAtLeastMinApart(b, e.polls, budget, i);
      PollsAtLeastMinApart(b, e.polls, 0, budget);
      PollsAtLeastMinApart(b, e.polls, 1, budget);
      Distances(b, budget, e.floor, e.lag);
    }
  }

  lemma Distances(b: Bounds, budget: nat, floor: int, lag: int)
    requires lag >= 0 && (budget >= 6 || !Crowded(b, floor, lag, budget))
    ensures floor + budget * b.Min() >= 5 * b.Min() || lag + (budget - 1) * b.Min() >= 5 * b.Min()
  {
    if budget >= 6 {
      assert (budget - 1) * b.Min() >= 5 * b.Min();
    }
  }

  /** The epoch of a key goes on: nobody restarts it. */
  predicate SameEpoch(events: seq<Event>, key: string) {
    forall e | e in events :: e.Restart? ==> !Mentions(e.hashes, key)
  }

  ghost predicate AlwaysWithinBudget(b: Bounds, s: System, key: string, budget: nat) {
    forall events | Legal(b, s, events) && SameEpoch(events, key) :: WithinBudget(b, Final(b, s, events), key, budget)
  }

  /**
   A poll of the key is under way that can still end less than so many intervals after the restart's
   reading, and the reading is not too old.
   */
  predicate Overlaps(b: Bounds, s: System, key: string, readAt: int, budget: nat) {
    UnderWay(s, key) && Crowded(b, s.stepped - readAt, s.clock - readAt, budget)
  }

  /**
   For any bounds in order, any reachable state, any restart of a key and any budget of four or more:
   every continuation of the new epoch keeps the budget exactly when no poll overlaps.
   */
  lemma BudgetIffNoOverlap(b: Bounds, clock: int, before: seq<Event>, hashes: seq<string>, readAt: int, key: string,
                           budget: nat)
    requires b.Min() <= b.Max() && Legal(b, Start(clock), before) && budget >= 4
    requires Enabled(Final(b, Start(clock), before), Restart(hashes, readAt)) && Mentions(hashes, key)
    requires key in Final(b, Start(clock), before).records
    ensures var s := Final(b, Start(clock), before);
            AlwaysWithinBudget(b, After(b, s, Restart(hashes, readAt)), key, budget)
            <==> !Overlaps(b, s, key, readAt, budget)
  {
    KeptOverRuns(b, Start(clock), before);
    var s := Final(b, Start(clock), before);
    var s' := After(b, s, Restart(hashes, readAt));
    EpochsKeptBy(b, s, Restart(hashes, readAt));
    assert s'.epochs[key] == NewEpochAt(b, s, key, readAt);
    if Overlaps(b, s, key, readAt, budget) {
      var events := OneTooMany(b, s, hashes, readAt, key, budget);
      assert !WithinBudget(b, Final(b, s', events), key, budget);
    } else {
      IntervalAtStart(b, budget);
      forall events | Legal(b, s', events) && SameEpoch(events, key)
        ensures WithinBudget(b, Final(b, s', events), key, budget)
      {
        EpochStays(b, s', events, key);
        EpochWithinBudget(b, Final(b, s', events), key, budget);
      }
    }
  }

  lemma IntervalAtStart(b: Bounds, budget: nat)
    requires budget >= 4
    ensures forall lag :: !Crowded(b, Interval(b, 0), lag, budget)
  {
    assert (5 - budget) * b.Min() <= b.Min();
  }

  lemma {:induction false} EpochStays(b: Bounds, s: System, events: seq<Event>, key: string)
    requires EpochsKept(b, s) && key in s.epochs && Legal(b, s, events) && SameEpoch(events, key)
    ensures var s' := Final(b, s, events);
            && EpochsKept(b, s') && key in s'.epochs
            && s'.epochs[key].floor == s.epochs[key].floor && s'.epochs[key].lag == s.epochs[key].lag
    decreases |events|
  {
    if events != [] {
      EpochsKeptBy(b, s, events[0]);
      EpochStep(b, s, events[0], key);
      EpochStays(b, After(b, s, events[0]), events[1..], key);
    }
  }

  lemma EpochStep(b: Bounds, s: System, e: Event, key: string)
    requires Enabled(s, e) && key in s.epochs
    requires e.Restart? ==> !Mentions(e.hashes, key)
    ensures var s' := After(b, s, e);
            && key in s'.epochs
            && s'.epochs[key].floor == s.epochs[key].floor && s'.epochs[key].lag == s.epochs[key].lag
  {
    hide Registered, Restarted, Published, Refreshed, Unregistered, NewEpochAt, Mentions, Scheduled;
  }

  // ----- A restart during a poll -----

  lemma {:induction false} EarliestExists(rs: Records, keys: set<string>) returns (earliest: string)
    requires keys != {} && keys <= rs.Keys
    ensures earliest in keys && forall k | k in keys :: rs[earliest].nextPollAt <= rs[k].nextPollAt
  {
    var k :| k in keys;
    earliest := k;
    var rest := keys - {k};
    if rest != {} {
      var other := EarliestExists(rs, rest);
      earliest := if rs[k].nextPollAt <= rs[other].nextPollAt then k else other;
    }
    forall j | j in keys ensures rs[earliest].nextPollAt <= rs[j].nextPollAt {
      assert j == k || j in rest;
    }
  }

  /** The scheduler can always decide. */
  lemma DecisionExists(rs: Records, now: int) returns (next: Option<int>, targets: set<string>)
    ensures Scheduled(rs, now, next, targets)
  {
    targets := set k | k in rs && Waited(rs, k) && rs[k].nextPollAt <= now;
    var others := set k | k in rs && Waited(rs, k) && rs[k].nextPollAt > now;
    next := None;
    if others != {} {
      var k := EarliestExists(rs, others);
      next := Some(rs[k].nextPollAt);
    }
    assert forall k | Waited(rs, k) && k !in targets :: k in others;
  }

  lemma {:induction false} RunThenRun(b: Bounds, s: System, first: seq<Event>, rest: seq<Event>)
    requires Legal(b, s, first) && Legal(b, Final(b, s, first), rest)
    ensures Legal(b, s, first + rest) && Final(b, s, first + rest) == Final(b, Final(b, s, first), rest)
    decreases |first|
  {
    if first == [] {
      assert first + rest == rest;
    } else {
      assert (first + rest)[0] == first[0] && (first + rest)[1..] == first[1..] + rest;
      RunThenRun(b, After(b, s, first[0]), first[1..], rest);
    }
  }

  lemma StepThenRun(b: Bounds, s: System, e: Event, rest: seq<Event>)
    requires Enabled(s, e) && Legal(b, After(b, s, e), rest)
    ensures Legal(b, s, [e] + rest) && Final(b, s, [e] + rest) == Final(b, After(b, s, e), rest)
  {
    assert ([e] + rest)[1..] == rest;
  }

  /** The scheduler is deciding, and somebody waits for the key. */
  ghost predicate Ready(b: Bounds, s: System, key: string) {
    EpochsKept(b, s) && s.scheduler.Deciding? && Waited(s.records, key) && key in s.epochs
  }

  /** Ending a poll at a time. */
  lemma EndOfPoll(b: Bounds, s: System, key: string, at: int)
    requires EpochsKept(b, s) && UnderWay(s, key) && Waited(s.records, key) && s.stepped <= at <= s.clock
    ensures Enabled(s, FinishPoll(at, map[], false))
    ensures var s' := After(b, s, FinishPoll(at, map[], false));
            && Ready(b, s', key) && s'.clock == s.clock && s'.records[key].startedAt == s.records[key].startedAt
            && s'.epochs[key].polls == s.epochs[key].polls + [at - s.records[key].startedAt]
  {
    EpochsKeptBy(b, s, FinishPoll(at, map[], false));
    hide EpochsKept, Interval;
    var boxes := s.records[key].waiters;
    assert Offer(boxes, PollResult(None, false)).Keys == boxes.Keys;
    assert boxes.Keys != {};
  }

  function Later(a: int, b: int): int {
    if a > b then a else b
  }

  /** From a state that is ready the key's poll can be decided as soon as it is due. */
  lemma DueIsDecided(b: Bounds, s: System, key: string) returns (tick: Event, decide: Event)
    requires Ready(b, s, key)
    ensures Enabled(s, tick) && Enabled(After(b, s, tick), decide) && !tick.Restart? && !decide.Restart?
    ensures var s' := After(b, After(b, s, tick), decide);
            && EpochsKept(b, s') && UnderWay(s', key) && s'.records == s.records && s'.epochs == s.epochs
            && s'.clock == s'.stepped == Later(s.records[key].nextPollAt, s.clock)
  {
    var at := Later(s.records[key].nextPollAt, s.clock);
    tick := Tick(at);
    EpochsKeptBy(b, s, tick);
    var next, targets := DecisionExists(s.records, at);
    decide := Decide(at, next, targets);
    EpochsKeptBy(b, After(b, s, tick), decide);
    hide EpochsKept;
  }

  /** And it can end there. */
  lemma PollWhenDue(b: Bounds, s: System, key: string) returns (events: seq<Event>)
    requires Ready(b, s, key)
    ensures Legal(b, s, events) && SameEpoch(events, key)
    ensures var s' := Final(b, s, events);
            && Ready(b, s', key) && s'.records[key].startedAt == s.records[key].startedAt
            && s'.clock == Later(s.records[key].nextPollAt, s.clock)
            && s'.epochs[key].polls == s.epochs[key].polls + [s'.clock - s.records[key].startedAt]
  {
    hide EpochsKept, After, Waited, Enabled, UnderWay, Legal, Final;
    var tick, decide := DueIsDecided(b, s, key);
    var s2 := After(b, After(b, s, tick), decide);
    EndOfPoll(b, s2, key, s2.clock);
    var finish := FinishPoll(s2.clock, map[], false);
    ThreeSteps(b, s, tick, decide, finish);
    events := [tick, decide, finish];
  }

  lemma ThreeSteps(b: Bounds, s: System, e: Event, f: Event, g: Event)
    requires Enabled(s, e) && Enabled(After(b, s, e), f) && Enabled(After(b, After(b, s, e), f), g)
    ensures Legal(b, s, [e, f, g])
    ensures Final(b, s, [e, f, g]) == After(b, After(b, After(b, s, e), f), g)
  {
    hide Enabled, After;
    var s1 := After(b, s, e);
    StepThenRun(b, After(b, s1, f), g, []);
    StepThenRun(b, s1, f, [g]);
    StepThenRun(b, s, e, [f, g]);
    assert [g] + [] == [g] && [f] + [g] == [f, g] && [e] + [f, g] == [e, f, g];
  }

  /** The polls so far and the clock leave room for all polls up to one more than the budget to come early. */
  ghost predicate OnCourse(b: Bounds, s: System, key: string, budget: nat) {
    && Ready(b, s, key)
    && var polls := s.epochs[key].polls;
    && 1 <= |polls| <= budget + 1
    && polls[|polls| - 1] < (|polls| + 4 - budget) * b.Min()
    && s.clock - s.records[key].startedAt < (|polls| + 5 - budget) * b.Min()
  }

  lemma NextOnCourse(b: Bounds, s: System, key: string, budget: nat)
    requires b.Min() <= b.Max() && OnCourse(b, s, key, budget) && |s.epochs[key].polls| <= budget
    ensures var at := Later(s.records[key].nextPollAt, s.clock) - s.records[key].startedAt;
            var n := |s.epochs[key].polls|;
            at < (n + 5 - budget) * b.Min() < (n + 6 - budget) * b.Min()
  {
    assert EpochKept(b, s, key);
    var polls := s.epochs[key].polls;
    hide EpochsKept, FirstKept, LagKept, Spaced, Waited;
    EarlyIsMin(b, polls[|polls| - 1], |polls|, budget);
  }

  lemma EarlyIsMin(b: Bounds, e: int, n: nat, budget: nat)
    requires b.Min() <= b.Max() && n <= budget && e < (n + 4 - budget) * b.Min()
    ensures e + Interval(b, e) < (n + 5 - budget) * b.Min() < (n + 6 - budget) * b.Min()
  {
    var room := n + 4 - budget;
    assert room * b.Min() <= 4 * b.Min();
    assert (room + 1) * b.Min() == room * b.Min() + b.Min();
    assert (room + 2) * b.Min() == (room + 1) * b.Min() + b.Min();
  }

  lemma CourseEnds(b: Bounds, s: System, key: string, budget: nat)
    requires OnCourse(b, s, key, budget) && |s.epochs[key].polls| == budget + 1
    ensures !WithinBudget(b, s, key, budget)
  {
    assert s.epochs[key].polls[budget] < 5 * b.Min();
  }

  lemma OneOnCourse(b: Bounds, s: System, key: string, budget: nat) returns (events: seq<Event>)
    requires b.Min() <= b.Max() && OnCourse(b, s, key, budget) && |s.epochs[key].polls| <= budget
    ensures Legal(b, s, events) && SameEpoch(events, key)
    ensures var s' := Final(b, s, events);
            OnCourse(b, s', key, budget) && |s'.epochs[key].polls| == |s.epochs[key].polls| + 1
  {
    NextOnCourse(b, s, key, budget);
    events := PollWhenDue(b, s, key);
    hide Legal, Final, SameEpoch, Ready;
  }

  /** Polling when due stays on course. */
  lemma {:induction false} EarlyPollsFollow(b: Bounds, s: System, key: string, budget: nat)
    returns (events: seq<Event>)
    requires b.Min() <= b.Max() && OnCourse(b, s, key, budget)
    ensures Legal(b, s, events) && SameEpoch(events, key)
    ensures !WithinBudget(b, Final(b, s, events), key, budget)
    decreases budget + 1 - |s.epochs[key].polls|
  {
    if |s.epochs[key].polls| == budget + 1 {
      events := [];
      CourseEnds(b, s, key, budget);
    } else {
      hide *;
      var one := OneOnCourse(b, s, key, budget);
      var s' := Final(b, s, one);
      var more := EarlyPollsFollow(b, s', key, budget);
      RunThenRun(b, s, one, more);
      SameEpochAppend(one, more, key);
      events := one + more;
    }
  }

  lemma SameEpochAppend(first: seq<Event>, rest: seq<Event>, key: string)
    requires SameEpoch(first, key) && SameEpoch(rest, key)
    ensures SameEpoch(first + rest, key)
  {
  }

  /** From every state in which a poll overlaps the epoch that a restart begins, one poll too many can come early. */
  lemma OneTooMany(b: Bounds, s: System, hashes: seq<string>, readAt: int, key: string, budget: nat)
    returns (events: seq<Event>)
    requires b.Min() <= b.Max() && EpochsKept(b, s) && key in s.records && Mentions(hashes, key)
    requires Enabled(s, Restart(hashes, readAt)) && Overlaps(b, s, key, readAt, budget)
    ensures var s' := After(b, s, Restart(hashes, readAt));
            && Legal(b, s', events) && SameEpoch(events, key)
            && !WithinBudget(b, Final(b, s', events), key, budget)
  {
    hide *;
    var s1 := After(b, s, Restart(hashes, readAt));
    EpochsKeptBy(b, s, Restart(hashes, readAt));
    RestartBegins(b, s, hashes, readAt, key, budget);
    events := FirstPoll(b, s1, key);
    var s3 := Final(b, s1, events);
    CourseBegins(b, s3, key, s.stepped - readAt, s.clock - readAt, budget);
    var more := EarlyPollsFollow(b, s3, key, budget);
    RunThenRun(b, s1, events, more);
    SameEpochAppend(events, more, key);
    events := events + more;
  }

  lemma CourseBegins(b: Bounds, s: System, key: string, floor: int, lag: int, budget: nat)
    requires Ready(b, s, key) && Crowded(b, floor, lag, budget)
    requires s.epochs[key].polls == [floor] && s.clock - s.records[key].startedAt == lag
    ensures OnCourse(b, s, key, budget)
  {
    hide Ready;
  }

  lemma RestartBegins(b: Bounds, s: System, hashes: seq<string>, readAt: int, key: string, budget: nat)
    requires EpochsKept(b, s) && key in s.records && Mentions(hashes, key)
    requires Enabled(s, Restart(hashes, readAt)) && Overlaps(b, s, key, readAt, budget)
    ensures Crowded(b, s.stepped - readAt, s.clock - readAt, budget)
    ensures var s' := After(b, s, Restart(hashes, readAt));
            && key in s'.records && s'.records[key].startedAt == readAt
            && key in s'.epochs && s'.epochs[key].polls == []
            && s'.clock == s.clock && s'.stepped == s.stepped && UnderWay(s', key)
  {
    hide Crowded, Mentions;
  }

  /** Somebody waits for the key, and the poll under way ends. */
  lemma FirstPoll(b: Bounds, s: System, key: string) returns (events: seq<Event>)
    requires EpochsKept(b, s) && UnderWay(s, key) && key in s.records && key in s.epochs && s.epochs[key].polls == []
    ensures Legal(b, s, events) && SameEpoch(events, key)
    ensures var s' := Final(b, s, events);
            && Ready(b, s', key) && s'.clock == s.clock && s'.records[key].startedAt == s.records[key].startedAt
            && s'.epochs[key].polls == [s.stepped - s.records[key].startedAt]
  {
    hide *;
    var wait := SomebodyWaits(b, s, key);
    var s2 := After(b, s, wait);
    SteppedBefore(b, s);
    EndOfPoll(b, s2, key, s.stepped);
    var finish := FinishPoll(s.stepped, map[], false);
    NothingMore(b, After(b, s2, finish));
    StepThenRun(b, s2, finish, []);
    assert [finish] + [] == [finish] && [wait] + [finish] == [wait, finish];
    StepThenRun(b, s, wait, [finish]);
    events := [wait, finish];
    OthersKeepEpoch(wait, finish, key);
  }

  lemma OthersKeepEpoch(e: Event, f: Event, key: string)
    requires !e.Restart? && !f.Restart?
    ensures SameEpoch([e, f], key)
  {
  }

  lemma SteppedBefore(b: Bounds, s: System)
    requires EpochsKept(b, s)
    ensures s.stepped <= s.clock
  {
  }

  lemma NothingMore(b: Bounds, s: System)
    ensures Legal(b, s, []) && Final(b, s, []) == s
  {
  }

  lemma SomebodyWaits(b: Bounds, s: System, key: string) returns (wait: Event)
    requires EpochsKept(b, s) && key in s.records && key in s.epochs
    ensures wait.Wait? && Enabled(s, wait)
    ensures var s' := After(b, s, wait);
            && EpochsKept(b, s') && Waited(s'.records, key) && key in s'.epochs && s'.epochs == s.epochs
            && s'.records[key].startedAt == s.records[key].startedAt
            && s'.clock == s.clock && s'.stepped == s.stepped && (UnderWay(s', key) <==> UnderWay(s, key))
  {
    var waiter := FreshWaiter(s.records[key].waiters.Keys);
    wait := Wait(key, waiter, Started(key), s.clock);
    EpochsKeptBy(b, s, wait);
    hide EpochsKept;
    assert waiter in After(b, s, wait).records[key].waiters;
  }

  lemma {:induction false} FreshWaiter(used: set<nat>) returns (w: nat)
    ensures w !in used && forall u | u in used :: u < w
  {
    w := 0;
    if used != {} {
      var u :| u in used;
      var rest := used - {u};
      var v := FreshWaiter(rest);
      w := if u < v then v else u + 1;
      forall x | x in used ensures x < w {
        assert x == u || x in rest;
      }
    }
  }
}
