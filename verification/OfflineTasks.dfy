/**
 The manager of the offline tasks that callers wait for (internal/ingest/offline_tasks.go).
 Each method is one critical section, or a sequence of them with arbitrary interference by
 other goroutines in between. Times are nanoseconds; a zero time is None.
 */
module OfflineTasks {
  import opened Wrappers
  import opened PollSchedule
  import opened Texts

  datatype Task = Task(
    infoHash: string, name: string, resultId: string, status: int, lastUpdate: int, progress: real,
    done: bool, failed: bool)

  datatype PollResult = PollResult(task: Option<Task>, failed: bool)

  /** A waiter's channel holds at most one result. */
  type Mailboxes = map<nat, Option<PollResult>>

  datatype Record = Record(
    task: Task, startedAt: int, lastPollAt: Option<int>, nextPollAt: int, waiters: Mailboxes)

  type Records = map<string, Record>

  /** One answer of the provider; asking past the last one fails. */
  datatype Answer = Listed(tasks: seq<Task>, pageCount: int, at: int) | Failed

  datatype Fetched = Fetched(found: map<string, Task>, failed: bool, pages: nat)

  function KeyOf(t: Task): string {
    Lower(t.infoHash)
  }

  function Started(infoHash: string): Task {
    Task(infoHash, "", "", 0, 0, 0.0, false, false)
  }

  predicate Newer(candidate: Task, current: Task) {
    || current.infoHash == ""
    || candidate.lastUpdate > current.lastUpdate
    || (candidate.lastUpdate == current.lastUpdate && Seen(candidate) != Seen(current))
  }

  function Seen(t: Task): (int, real, string) {
    (t.status, t.progress, t.resultId)
  }

  /** A task replaces one without a hash, an older one, and one as old that shows something else. */
  lemma NewerMeans(candidate: Task, current: Task)
    ensures current.infoHash == "" ==> Newer(candidate, current)
    ensures current.infoHash != "" ==>
              (Newer(candidate, current) <==>
               || candidate.lastUpdate > current.lastUpdate
               || (candidate.lastUpdate == current.lastUpdate
                   && !(candidate.status == current.status && candidate.progress == current.progress
                        && candidate.resultId == current.resultId)))
  {
  }

  // ----- What the critical sections do to the records -----

  /** A full channel drops the result. */
  function Offer(boxes: Mailboxes, result: PollResult): Mailboxes {
    map w | w in boxes :: if boxes[w].None? then Some(result) else boxes[w]
  }

  function Registered(rs: Records, key: string, waiter: nat, current: Task, now: int, b: Bounds): Records {
    var r :=
      if key !in rs then Record(current, now, None, now + Interval(b, 0), map[])
      else if Newer(current, rs[key].task) then rs[key].(task := current)
      else rs[key];
    rs[key := r.(waiters := r.waiters[waiter := None])]
  }

  function Unregistered(rs: Records, key: string, waiter: nat): Records {
    if key in rs then rs[key := rs[key].(waiters := rs[key].waiters - {waiter})] else rs
  }

  predicate Mentions(hashes: seq<string>, key: string) {
    exists i | 0 <= i < |hashes| :: Lower(hashes[i]) == key
  }

  function NewEpoch(r: Record, key: string, now: int, b: Bounds): Record {
    r.(task := Started(key), startedAt := now, lastPollAt := None, nextPollAt := now + Interval(b, 0))
  }

  function Restarted(rs: Records, hashes: seq<string>, now: int, b: Bounds): Records {
    map k | k in rs :: if Mentions(hashes, k) then NewEpoch(rs[k], k, now, b) else rs[k]
  }

  function Polled(r: Record, task: Option<Task>, failed: bool, now: int, b: Bounds): Record {
    r.(lastPollAt := Some(now),
       nextPollAt := now + Interval(b, now - r.startedAt),
       task := if task.Some? then task.value else r.task,
       waiters := Offer(r.waiters, PollResult(task, failed)))
  }

  function Lookup(found: map<string, Task>, key: string): Option<Task> {
    if key in found then Some(found[key]) else None
  }

  function Published(
      rs: Records, targets: set<string>, found: map<string, Task>, failed: bool, now: int, b: Bounds): Records {
    map k | k in rs :: if k in targets then Polled(rs[k], Lookup(found, k), failed, now, b) else rs[k]
  }

  predicate Waited(rs: Records, key: string) {
    key in rs && rs[key].waiters != map[]
  }

  /** The targets are the waited-for records that are due; `next` is the earliest other deadline. */
  ghost predicate Scheduled(rs: Records, now: int, next: Option<int>, targets: set<string>) {
    && (forall k :: k in targets <==> Waited(rs, k) && rs[k].nextPollAt <= now)
    && (next.Some? ==> exists k :: Waited(rs, k) && rs[k].nextPollAt == next.value > now)
    && (forall k | Waited(rs, k) && k !in targets :: next.Some? && next.value <= rs[k].nextPollAt)
  }

  // ----- What listing a page does -----

  function Refreshed(rs: Records, t: Task): Records {
    var k := KeyOf(t);
    if k in rs && Newer(t, rs[k].task)
    then rs[k := rs[k].(task := t, waiters := Offer(rs[k].waiters, PollResult(Some(t), false)))]
    else rs
  }

  function RefreshedAll(rs: Records, list: seq<Task>): Records {
    if list == [] then rs else Refreshed(RefreshedAll(rs, list[..|list| - 1]), list[|list| - 1])
  }

  function Noted(snapshot: map<string, Task>, t: Task): map<string, Task> {
    if KeyOf(t) !in snapshot || Newer(t, snapshot[KeyOf(t)]) then snapshot[KeyOf(t) := t] else snapshot
  }

  function NotedAll(snapshot: map<string, Task>, list: seq<Task>): map<string, Task> {
    if list == [] then snapshot else Noted(NotedAll(snapshot, list[..|list| - 1]), list[|list| - 1])
  }

  function Stamped(stamps: map<string, int>, list: seq<Task>, at: int): map<string, int> {
    if list == [] then stamps else Stamped(stamps, list[..|list| - 1], at)[KeyOf(list[|list| - 1]) := at]
  }

  function FirstListed(list: seq<Task>, key: string): Option<Task> {
    if list == [] then None
    else
      var earlier := FirstListed(list[..|list| - 1], key);
      if earlier.None? && KeyOf(list[|list| - 1]) == key then Some(list[|list| - 1]) else earlier
  }

  function FirstOccurrences(targets: set<string>, list: seq<Task>): map<string, Task> {
    map k | k in targets && FirstListed(list, k).Some? :: FirstListed(list, k).value
  }

  function Missing(targets: set<string>, list: seq<Task>): set<string> {
    set k | k in targets && FirstListed(list, k).None?
  }

  /** The tasks on the first `n` pages, in order. */
  function Listing(answers: seq<Answer>, n: nat): seq<Task>
    requires n <= |answers|
  {
    if n == 0 then []
    else Listing(answers, n - 1) + if answers[n - 1].Listed? then answers[n - 1].tasks else []
  }

  /**
   Paging finds first occurrences, stops as soon as every target is covered, never before,
   except at the last page or at a failure.
   */
  predicate ReadsPages(targets: set<string>, answers: seq<Answer>, r: Fetched) {
    && r.pages <= |answers|
    && (forall p | 0 <= p < r.pages :: answers[p].Listed?)
    && r.found == FirstOccurrences(targets, Listing(answers, r.pages))
    && (forall p | 0 <= p < r.pages :: Missing(targets, Listing(answers, p)) != {})
    && (forall p | 0 <= p < r.pages - 1 :: p + 1 < answers[p].pageCount)
    && (r.failed ==>
          && Missing(targets, Listing(answers, r.pages)) != {}
          && (r.pages < |answers| ==> answers[r.pages].Failed?)
          && (r.pages > 0 ==> r.pages < answers[r.pages - 1].pageCount))
    && (!r.failed && Missing(targets, Listing(answers, r.pages)) != {} ==>
          r.pages > 0 && r.pages >= answers[r.pages - 1].pageCount)
  }

  // ----- What a waiter sees -----

  /** The same waiters; who had a result still has it, and everybody else now has this one. */
  predicate Delivered(before: Mailboxes, after: Mailboxes, result: PollResult) {
    && after.Keys == before.Keys
    && forall w | w in before :: after[w] == Some(if before[w].Some? then before[w].value else result)
  }

  /** The record after a poll: schedule, task and mailboxes. */
  predicate IsPolled(before: Record, after: Record, task: Option<Task>, failed: bool, now: int, b: Bounds) {
    && after.startedAt == before.startedAt && after.lastPollAt == Some(now)
    && after.nextPollAt == now + Interval(b, now - before.startedAt)
    && after.task == (if task.Some? then task.value else before.task)
    && Delivered(before.waiters, after.waiters, PollResult(task, failed))
  }

  /** Every target that has a record is polled, every other record stays. */
  lemma PublishedMeans(rs: Records, targets: set<string>, found: map<string, Task>, failed: bool, now: int, b: Bounds)
    ensures var after := Published(rs, targets, found, failed, now, b);
            && after.Keys == rs.Keys
            && (forall k | k in rs && k !in targets :: after[k] == rs[k])
            && (forall k | k in rs && k in targets ::
                  IsPolled(rs[k], after[k], if k in found then Some(found[k]) else None, failed, now, b))
  {
  }

  lemma PublishedNone(rs: Records, found: map<string, Task>, failed: bool, now: int, b: Bounds)
    ensures Published(rs, {}, found, failed, now, b) == rs
  {
  }

  lemma PublishedNext(rs: Records, done: set<string>, key: string, found: map<string, Task>, failed: bool, now: int,
                      b: Bounds)
    requires key !in done
    ensures var before := Published(rs, done, found, failed, now, b);
            Published(rs, done + {key}, found, failed, now, b) ==
            if key in before then before[key := Polled(before[key], Lookup(found, key), failed, now, b)] else before
  {
    hide Polled, Lookup;
  }

  /** The task is listed under the key and newer than what the record shows. */
  predicate Updates(list: seq<Task>, i: int, key: string, current: Task) {
    0 <= i < |list| && KeyOf(list[i]) == key && Newer(list[i], current)
  }

  predicate FirstUpdate(list: seq<Task>, i: int, key: string, current: Task) {
    Updates(list, i, key, current) && forall j | 0 <= j < i :: !Updates(list, j, key, current)
  }

  /** Nothing about the record but its task and its mailboxes changes. */
  predicate SameSchedule(before: Record, after: Record) {
    && after.startedAt == before.startedAt && after.lastPollAt == before.lastPollAt
    && after.nextPollAt == before.nextPollAt
  }

  /**
   The record after a list of tasks: if one of them is newer than its task, everybody without a result has
   the first such one; otherwise nothing has happened to it.
   */
  ghost predicate IsRefreshed(before: Record, after: Record, list: seq<Task>, key: string) {
    && SameSchedule(before, after)
    && ((exists i :: Updates(list, i, key, before.task)) ==>
          exists i :: FirstUpdate(list, i, key, before.task)
                      && Delivered(before.waiters, after.waiters, PollResult(Some(list[i]), false)))
    && ((forall i :: !Updates(list, i, key, before.task)) ==> after == before)
  }

  lemma FirstUpdateStays(list: seq<Task>, i: int, key: string, current: Task)
    requires list != [] && FirstUpdate(list[..|list| - 1], i, key, current)
    ensures FirstUpdate(list, i, key, current)
  {
    forall j | 0 <= j < i ensures !Updates(list, j, key, current) {
      assert !Updates(list[..|list| - 1], j, key, current);
    }
  }

  lemma {:induction false} RefreshedMeans(rs: Records, list: seq<Task>, key: string)
    requires key in rs
    ensures RefreshedAll(rs, list).Keys == rs.Keys
    ensures IsRefreshed(rs[key], RefreshedAll(rs, list)[key], list, key)
  {
    if list == [] {
      assert forall i :: !Updates(list, i, key, rs[key].task);
    } else {
      hide *;
      var shorter := list[..|list| - 1];
      RefreshedMeans(rs, shorter, key);
      RefreshSnoc(rs, list);
      LastRefresh(RefreshedAll(rs, shorter), list[|list| - 1], key);
      RefreshedNext(rs[key], RefreshedAll(rs, shorter)[key], RefreshedAll(rs, list)[key], list, key);
    }
  }

  /** What one more task does to a record. */
  predicate IsRefreshedBy(before: Record, after: Record, t: Task, key: string) {
    if KeyOf(t) == key && Newer(t, before.task)
    then SameSchedule(before, after) && Delivered(before.waiters, after.waiters, PollResult(Some(t), false))
    else after == before
  }

  lemma RefreshedNext(before: Record, middle: Record, after: Record, list: seq<Task>, key: string)
    requires list != [] && IsRefreshed(before, middle, list[..|list| - 1], key)
    requires IsRefreshedBy(middle, after, list[|list| - 1], key)
    ensures IsRefreshed(before, after, list, key)
  {
    var n := |list| - 1;
    hide Newer, Lower, KeyOf;
    if i :| Updates(list[..n], i, key, before.task) {
      var f :| FirstUpdate(list[..n], f, key, before.task)
            && Delivered(before.waiters, middle.waiters, PollResult(Some(list[..n][f]), false));
      FirstUpdateStays(list, f, key, before.task);
      assert Updates(list, f, key, before.task);
    } else {
      forall j | 0 <= j < n ensures !Updates(list, j, key, before.task) {
        assert !Updates(list[..n], j, key, before.task);
      }
      if Updates(list, n, key, before.task) {
        assert FirstUpdate(list, n, key, before.task);
      } else {
        forall j ensures !Updates(list, j, key, before.task) {
        }
      }
    }
  }

  lemma RefreshSnoc(rs: Records, list: seq<Task>)
    requires list != []
    ensures RefreshedAll(rs, list) == Refreshed(RefreshedAll(rs, list[..|list| - 1]), list[|list| - 1])
  {
  }

  lemma LastRefresh(rs: Records, t: Task, key: string)
    requires key in rs
    ensures Refreshed(rs, t).Keys == rs.Keys && IsRefreshedBy(rs[key], Refreshed(rs, t)[key], t, key)
  {
    hide Newer, Lower;
  }

  /** What is listed is stamped, and nothing else. */
  lemma {:induction false} StampedMeans(stamps: map<string, int>, list: seq<Task>, at: int)
    ensures forall k :: k in Stamped(stamps, list, at) <==>
            k in stamps || exists i | 0 <= i < |list| :: KeyOf(list[i]) == k
    ensures forall i | 0 <= i < |list| :: KeyOf(list[i]) in Stamped(stamps, list, at)
                                          && Stamped(stamps, list, at)[KeyOf(list[i])] == at
    ensures forall k | k in stamps && (forall i | 0 <= i < |list| :: KeyOf(list[i]) != k) ::
              k in Stamped(stamps, list, at) && Stamped(stamps, list, at)[k] == stamps[k]
  {
    if list != [] {
      var n := |list| - 1;
      StampedMeans(stamps, list[..n], at);
      hide KeyOf;
      forall i | 0 <= i < n ensures list[..n][i] == list[i] {
      }
      forall k
        ensures k in Stamped(stamps, list, at) <==>
                k in stamps || exists i | 0 <= i < |list| :: KeyOf(list[i]) == k
      {
        if i :| 0 <= i < n && KeyOf(list[..n][i]) == k {
          assert KeyOf(list[i]) == k;
        }
      }
    }
  }

  class OfflineTaskManager {
    const bounds: Bounds
    var tasks: Records
    var snapshot: map<string, Task>
    var snapshotAt: map<string, int>
    var wake: bool

    constructor (bounds: Bounds)
      ensures this.bounds == bounds && tasks == map[] && snapshot == map[] && snapshotAt == map[] && !wake
    {
      this.bounds := bounds;
      tasks, snapshot, snapshotAt, wake := map[], map[], map[], false;
    }

    /** The first critical section of wait. */
    method Register(key: string, waiter: nat, current: Task, now: int)
      modifies this`tasks
      ensures tasks == Registered(old(tasks), key, waiter, current, now, bounds)
      ensures forall k | k in old(tasks) && k != key :: k in tasks && tasks[k] == old(tasks)[k]
      ensures key in tasks && waiter in tasks[key].waiters && tasks[key].waiters[waiter] == None
      ensures key !in old(tasks) ==>
                tasks[key] == Record(current, now, None, now + Interval(bounds, 0), map[waiter := None])
      ensures key in old(tasks) ==>
                && SameSchedule(old(tasks)[key], tasks[key])
                && (forall w | w in old(tasks)[key].waiters && w != waiter ::
                      w in tasks[key].waiters && tasks[key].waiters[w] == old(tasks)[key].waiters[w])
                && tasks[key].task == (if Newer(current, old(tasks)[key].task) then current else old(tasks)[key].task)
    {
      if key !in tasks {
        tasks := tasks[key := Record(current, now, None, now + Interval(bounds, 0), map[])];
      } else if Newer(current, tasks[key].task) {
        tasks := tasks[key := tasks[key].(task := current)];
      }
      tasks := tasks[key := tasks[key].(waiters := tasks[key].waiters[waiter := None])];
    }

    method RemoveWaiter(key: string, waiter: nat)
      modifies this`tasks
      ensures tasks == Unregistered(old(tasks), key, waiter)
      ensures tasks.Keys == old(tasks).Keys && forall k | k in tasks && k != key :: tasks[k] == old(tasks)[k]
      ensures key in tasks ==> tasks[key] == old(tasks)[key].(waiters := tasks[key].waiters)
      ensures key in tasks ==> forall w :: w in tasks[key].waiters <==> w in old(tasks)[key].waiters && w != waiter
      ensures key in tasks ==> forall w | w in tasks[key].waiters ::
                                 tasks[key].waiters[w] == old(tasks)[key].waiters[w]
    {
      if key in tasks {
        tasks := tasks[key := tasks[key].(waiters := tasks[key].waiters - {waiter})];
      }
    }

    method Signal()
      modifies this`wake
      ensures wake
    {
      if !wake {
        wake := true;
      }
    }

    method Invalidate(hashes: seq<string>)
      modifies this`snapshot, this`snapshotAt
      ensures forall k :: k in snapshot <==> k in old(snapshot) && hashes != [] && !Mentions(hashes, k)
      ensures forall k :: k in snapshotAt <==> k in old(snapshotAt) && hashes != [] && !Mentions(hashes, k)
      ensures forall k | k in snapshot :: snapshot[k] == old(snapshot)[k]
      ensures forall k | k in snapshotAt :: snapshotAt[k] == old(snapshotAt)[k]
    {
      if hashes == [] {
        snapshot, snapshotAt := map[], map[];
      }
      for i := 0 to |hashes|
        invariant hashes != [] ==> forall k :: k in snapshot <==> k in old(snapshot) && !Mentions(hashes[..i], k)
        invariant hashes != [] ==> forall k :: k in snapshotAt <==> k in old(snapshotAt) && !Mentions(hashes[..i], k)
        invariant forall k | k in snapshot :: k in old(snapshot) && snapshot[k] == old(snapshot)[k]
        invariant forall k | k in snapshotAt :: k in old(snapshotAt) && snapshotAt[k] == old(snapshotAt)[k]
        invariant hashes == [] ==> snapshot == map[] && snapshotAt == map[]
      {
        MentionsNext(hashes, i);
        snapshot, snapshotAt := snapshot - {Lower(hashes[i])}, snapshotAt - {Lower(hashes[i])};
      }
      assert hashes[..|hashes|] == hashes;
    }

    method Restart(hashes: seq<string>, now: int)
      modifies this`tasks
      ensures tasks == Restarted(old(tasks), hashes, now, bounds)
      ensures tasks.Keys == old(tasks).Keys
      ensures forall k | k in tasks && (forall i | 0 <= i < |hashes| :: Lower(hashes[i]) != k) ::
                tasks[k] == old(tasks)[k]
      ensures forall i | 0 <= i < |hashes| && Lower(hashes[i]) in tasks ::
                tasks[Lower(hashes[i])] == Record(Task(Lower(hashes[i]), "", "", 0, 0, 0.0, false, false),
                                                  now, None, now + Interval(bounds, 0),
                                                  old(tasks)[Lower(hashes[i])].waiters)
    {
      for i := 0 to |hashes|
        invariant tasks == Restarted(old(tasks), hashes[..i], now, bounds)
      {
        MentionsNext(hashes, i);
        var key := Lower(hashes[i]);
        if key in tasks {
          tasks := tasks[key := NewEpoch(tasks[key], key, now, bounds)];
        }
      }
      assert hashes[..|hashes|] == hashes;
    }

    method NextTargets(now: int) returns (next: Option<int>, targets: set<string>)
      ensures Scheduled(tasks, now, next, targets)
    {
      next, targets := None, {};
      var left := tasks.Keys;
      while left != {}
        invariant left <= tasks.Keys
        invariant forall k :: k in targets <==> k !in left && Waited(tasks, k) && tasks[k].nextPollAt <= now
        invariant next.Some? ==> exists k :: Waited(tasks, k) && tasks[k].nextPollAt == next.value > now
        invariant forall k | k !in left && Waited(tasks, k) && k !in targets ::
                    next.Some? && next.value <= tasks[k].nextPollAt
        decreases |left|
      {
        var key :| key in left;
        left := left - {key};
        var record := tasks[key];
        if record.waiters != map[] {
          assert Waited(tasks, key);
          if record.nextPollAt <= now {
            targets := targets + {key};
          } else if next.None? || record.nextPollAt < next.value {
            next := Some(record.nextPollAt);
          }
        }
      }
    }

    /** The critical section that ends a poll. */
    method Publish(targets: set<string>, found: map<string, Task>, failed: bool, now: int)
      modifies this`tasks
      ensures tasks == Published(old(tasks), targets, found, failed, now, bounds)
      ensures tasks.Keys == old(tasks).Keys && forall k | k in tasks && k !in targets :: tasks[k] == old(tasks)[k]
      ensures forall k | k in tasks && k in targets ::
                IsPolled(old(tasks)[k], tasks[k], if k in found then Some(found[k]) else None, failed, now, bounds)
    {
      hide *;
      PublishedMeans(tasks, targets, found, failed, now, bounds);
      PublishedNone(tasks, found, failed, now, bounds);
      var left := targets;
      assert targets - left == {};
      while left != {}
        invariant left <= targets
        invariant tasks == Published(old(tasks), targets - left, found, failed, now, bounds)
        decreases |left|
      {
        var key :| key in left;
        ghost var done := targets - left;
        PublishedNext(old(tasks), done, key, found, failed, now, bounds);
        left := left - {key};
        assert targets - left == done + {key};
        if key in tasks {
          tasks := tasks[key := Polled(tasks[key], Lookup(found, key), failed, now, bounds)];
        }
      }
      assert targets - left == targets;
    }

    /** The critical section that follows a page: the targets still wanted and those found. */
    method Absorb(page: seq<Task>, at: int, pending: set<string>, found: map<string, Task>,
                  ghost targets: set<string>, ghost before: seq<Task>)
      returns (pending': set<string>, found': map<string, Task>)
      requires pending == Missing(targets, before) && found == FirstOccurrences(targets, before)
      modifies this`tasks, this`snapshot, this`snapshotAt
      ensures tasks == RefreshedAll(old(tasks), page)
      ensures snapshot == NotedAll(old(snapshot), page)
      ensures snapshotAt == Stamped(old(snapshotAt), page, at)
      ensures tasks.Keys == old(tasks).Keys
      ensures forall k | k in tasks :: IsRefreshed(old(tasks)[k], tasks[k], page, k)
      ensures forall i | 0 <= i < |page| :: KeyOf(page[i]) in snapshotAt && snapshotAt[KeyOf(page[i])] == at
      ensures forall k | k in old(snapshotAt) && (forall i | 0 <= i < |page| :: KeyOf(page[i]) != k) ::
                k in snapshotAt && snapshotAt[k] == old(snapshotAt)[k]
      ensures pending' == Missing(targets, before + page)
      ensures found' == FirstOccurrences(targets, before + page)
    {
      PageMeans(tasks, snapshotAt, page, at);
      hide FirstOccurrences, Missing, Newer, Offer, RefreshedAll, NotedAll, Stamped, Lower, IsRefreshed;
      pending', found' := pending, found;
      NothingOnPage(tasks, snapshot, snapshotAt, page, at);
      assert before + page[..0] == before;
      for i := 0 to |page|
        invariant tasks == RefreshedAll(old(tasks), page[..i])
        invariant snapshot == NotedAll(old(snapshot), page[..i])
        invariant snapshotAt == Stamped(old(snapshotAt), page[..i], at)
        invariant pending' == Missing(targets, before + page[..i])
        invariant found' == FirstOccurrences(targets, before + page[..i])
      {
        OneMoreOnPage(old(tasks), old(snapshot), old(snapshotAt), page, i, at);
        assert before + page[..i + 1] == (before + page[..i]) + [page[i]];
        OneMoreListed(targets, before + page[..i], page[i]);
        var task := page[i];
        var key := KeyOf(task);
        if key !in snapshot || Newer(task, snapshot[key]) {
          snapshot := snapshot[key := task];
        }
        snapshotAt := snapshotAt[key := at];
        if key in tasks && Newer(task, tasks[key].task) {
          tasks := tasks[key := tasks[key].(
            task := task, waiters := Offer(tasks[key].waiters, PollResult(Some(task), false)))];
        }
        if key in pending' {
          if key !in found' {
            // The other disjunct of the source, a newer task, is for a key found before: never a pending one.
            found' := found'[key := task];
          }
          pending' := pending' - {key};
        }
      }
      assert page[..|page|] == page;
    }

    /** Whatever other goroutines do while this one does not hold the lock. */
    method Others()
      modifies this
    {
    }

    method FetchPages(targets: set<string>, answers: seq<Answer>) returns (r: Fetched)
      modifies this
      ensures ReadsPages(targets, answers, r)
    {
      hide FirstOccurrences, Missing, Listing;
      var pending := targets;
      var found: map<string, Task> := map[];
      var page := 0;
      NothingListed(targets);
      ListingStep(answers, 0);
      while pending != {}
        invariant page <= |answers|
        invariant pending == Missing(targets, Listing(answers, page))
        invariant found == FirstOccurrences(targets, Listing(answers, page))
        invariant forall p | 0 <= p < page ::
                    && answers[p].Listed?
                    && Missing(targets, Listing(answers, p)) != {}
                    && p + 1 < answers[p].pageCount
        decreases |answers| - page
      {
        Others();
        if page == |answers| || answers[page].Failed? {
          return Fetched(found, true, page);
        }
        pending, found := Absorb(answers[page].tasks, answers[page].at, pending, found,
                                 targets, Listing(answers, page));
        ListingStep(answers, page + 1);
        page := page + 1;
        if answers[page - 1].pageCount <= 0 || page >= answers[page - 1].pageCount {
          break;
        }
      }
      r := Fetched(found, false, page);
    }

    /** Answers from the snapshot if it knows every target and knows it recently enough. */
    method Cached(targets: set<string>, maxAge: int, now: int) returns (r: Option<map<string, Task>>)
      ensures r.Some? <==> forall k | k in targets :: k in snapshot && k in snapshotAt && now - snapshotAt[k] < maxAge
      ensures r.Some? ==> r.value == map k | k in targets && k in snapshot :: snapshot[k]
    {
      var cached: map<string, Task> := map[];
      var left := targets;
      while left != {}
        invariant left <= targets
        invariant forall k | k in targets - left :: k in snapshot && k in snapshotAt && now - snapshotAt[k] < maxAge
        invariant cached == map k | k in targets - left && k in snapshot :: snapshot[k]
        decreases |left|
      {
        var key :| key in left;
        if key !in snapshot || key !in snapshotAt || now - snapshotAt[key] >= maxAge {
          return None;
        }
        cached := cached[key := snapshot[key]];
        left := left - {key};
      }
      assert targets - left == targets;
      r := Some(cached);
    }

    method Fetch(targets: set<string>, maxAge: int, now: int, answers: seq<Answer>) returns (r: Fetched)
      modifies this
      ensures var known := forall k | k in targets ::
                k in old(snapshot) && k in old(snapshotAt) && now - old(snapshotAt)[k] < maxAge;
              if maxAge > 0 && known
              then r == Fetched(map k | k in targets && k in old(snapshot) :: old(snapshot)[k], false, 0)
              else ReadsPages(targets, answers, r)
    {
      if maxAge > 0 {
        var cached := Cached(targets, maxAge, now);
        if cached.Some? {
          return Fetched(cached.value, false, 0);
        }
      }
      r := FetchPages(targets, answers);
    }

    method Poll(targets: set<string>, answers: seq<Answer>, now: int) returns (r: Fetched)
      modifies this
      ensures ReadsPages(targets, answers, r)
      ensures forall k | k in targets && k in tasks ::
                && tasks[k].lastPollAt == Some(now)
                && tasks[k].nextPollAt == now + Interval(bounds, now - tasks[k].startedAt)
                && (k in r.found ==> tasks[k].task == r.found[k])
                && forall w | w in tasks[k].waiters :: tasks[k].waiters[w].Some?
    {
      r := FetchPages(targets, answers);
      Others();
      Publish(targets, r.found, r.failed, now);
    }
  }

  lemma ListingStep(answers: seq<Answer>, n: nat)
    requires n <= |answers| && (n > 0 ==> answers[n - 1].Listed?)
    ensures Listing(answers, n) == if n == 0 then [] else Listing(answers, n - 1) + answers[n - 1].tasks
  {
  }

  lemma NothingListed(targets: set<string>)
    ensures Missing(targets, []) == targets && FirstOccurrences(targets, []) == map[]
  {
  }

  lemma PageMeans(rs: Records, stamps: map<string, int>, page: seq<Task>, at: int)
    ensures RefreshedAll(rs, page).Keys == rs.Keys
    ensures forall k | k in rs :: k in RefreshedAll(rs, page) && IsRefreshed(rs[k], RefreshedAll(rs, page)[k], page, k)
    ensures forall i | 0 <= i < |page| ::
              KeyOf(page[i]) in Stamped(stamps, page, at) && Stamped(stamps, page, at)[KeyOf(page[i])] == at
    ensures forall k | k in stamps && (forall i | 0 <= i < |page| :: KeyOf(page[i]) != k) ::
              k in Stamped(stamps, page, at) && Stamped(stamps, page, at)[k] == stamps[k]
  {
    StampedMeans(stamps, page, at);
    hide IsRefreshed;
    forall k | k in rs
      ensures k in RefreshedAll(rs, page) && IsRefreshed(rs[k], RefreshedAll(rs, page)[k], page, k)
    {
      RefreshedMeans(rs, page, k);
    }
    if rs == map[] {
      NoRecords(page);
    } else {
      var k :| k in rs;
      RefreshedMeans(rs, page, k);
    }
  }

  lemma {:induction false} NoRecords(page: seq<Task>)
    ensures RefreshedAll(map[], page) == map[]
  {
    if page != [] {
      NoRecords(page[..|page| - 1]);
    }
  }

  lemma NothingOnPage(rs: Records, snapshot: map<string, Task>, stamps: map<string, int>, page: seq<Task>, at: int)
    ensures RefreshedAll(rs, page[..0]) == rs && NotedAll(snapshot, page[..0]) == snapshot
    ensures Stamped(stamps, page[..0], at) == stamps
  {
  }

  lemma OneMoreOnPage(rs: Records, snapshot: map<string, Task>, stamps: map<string, int>, page: seq<Task>, i: nat,
                      at: int)
    requires i < |page|
    ensures RefreshedAll(rs, page[..i + 1]) == Refreshed(RefreshedAll(rs, page[..i]), page[i])
    ensures NotedAll(snapshot, page[..i + 1]) == Noted(NotedAll(snapshot, page[..i]), page[i])
    ensures Stamped(stamps, page[..i + 1], at) == Stamped(stamps, page[..i], at)[KeyOf(page[i]) := at]
  {
    assert page[..i + 1][..i] == page[..i];
    hide Refreshed, Noted, KeyOf;
  }

  lemma OneMoreListed(targets: set<string>, list: seq<Task>, t: Task)
    ensures Missing(targets, list + [t]) == Missing(targets, list) - {KeyOf(t)}
    ensures FirstOccurrences(targets, list + [t]) ==
            if KeyOf(t) in Missing(targets, list)
            then FirstOccurrences(targets, list)[KeyOf(t) := t] else FirstOccurrences(targets, list)
    ensures Missing(targets, list) !! FirstOccurrences(targets, list).Keys
  {
    assert (list + [t])[..|list|] == list;
    assert forall k :: FirstListed(list + [t], k) ==
                       if FirstListed(list, k).None? && KeyOf(t) == k then Some(t) else FirstListed(list, k);
  }

  lemma MentionsNext(hashes: seq<string>, i: nat)
    requires i < |hashes|
    ensures forall k :: Mentions(hashes[..i + 1], k) <==> Mentions(hashes[..i], k) || Lower(hashes[i]) == k
  {
    forall k ensures Mentions(hashes[..i + 1], k) <==> Mentions(hashes[..i], k) || Lower(hashes[i]) == k {
      if Mentions(hashes[..i + 1], k) {
        var j :| 0 <= j <= i && Lower(hashes[..i + 1][j]) == k;
        assert j < i ==> Lower(hashes[..i][j]) == k;
      }
      if Mentions(hashes[..i], k) {
        var j :| 0 <= j < i && Lower(hashes[..i][j]) == k;
        assert Lower(hashes[..i + 1][j]) == k;
      }
      assert hashes[..i + 1][i] == hashes[i];
    }
  }
}
