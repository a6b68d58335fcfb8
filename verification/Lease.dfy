/**
 Refreshing the provider's token with one process at a time (internal/provider/p115/token.go,
 internal/storage/sqlite/credentials.go). Times are nanoseconds; the tables keep microseconds.
 */
module Lease {
  import opened Wrappers

  const MINUTE := 60 * 1000 * 1000 * 1000

  const REFRESH_LEASE := MINUTE
  const FAILURE_BACKOFF := 10 * MINUTE

  datatype Credential = Credential(access: string, refresh: string, expires: Option<int>)

  datatype Held = Held(owner: string, until: int)

  /** The stored text of a time, ordered like the time, drops what is below a microsecond. */
  function Micros(t: int): int {
    t / 1000
  }

  function Stored(c: Credential): Credential {
    c.(expires := if c.expires.Some? then Some(Micros(c.expires.value) * 1000) else None)
  }

  /** A credential is stored as it is, its expiry to the microsecond before. */
  lemma StoredMeans(c: Credential)
    ensures Stored(c).access == c.access && Stored(c).refresh == c.refresh
    ensures Stored(c).expires.Some? <==> c.expires.Some?
    ensures c.expires.Some? ==>
              && Stored(c).expires.value % 1000 == 0
              && Stored(c).expires.value <= c.expires.value < Stored(c).expires.value + 1000
  {
  }

  // ----- The lease row -----

  predicate Grants(lease: Option<Held>, owner: string, now: int) {
    lease.None? || lease.value.until < Micros(now) || lease.value.owner == owner
  }

  function Acquired(lease: Option<Held>, owner: string, until: int, now: int): Option<Held> {
    if Grants(lease, owner, now) then Some(Held(owner, Micros(until))) else lease
  }

  function Released(lease: Option<Held>, owner: string): Option<Held> {
    if lease.Some? && lease.value.owner == owner then None else lease
  }

  // ----- Runs of several processes -----

  /** Reimport is the import of changed credentials, which drops the lease of anybody. */
  datatype Event =
    | Acquire(owner: string, until: int, now: int)
    | Release(owner: string)
    | Reimport

  function After(lease: Option<Held>, e: Event): Option<Held> {
    match e
    case Acquire(owner, until, now) => Acquired(lease, owner, until, now)
    case Release(owner) => Released(lease, owner)
    case Reimport => None
  }

  function Run(lease: Option<Held>, events: seq<Event>): Option<Held> {
    if events == [] then lease else After(Run(lease, events[..|events| - 1]), events[|events| - 1])
  }

  predicate Succeeds(lease: Option<Held>, events: seq<Event>, i: nat)
    requires i < |events|
  {
    events[i].Acquire? && Grants(Run(lease, events[..i]), events[i].owner, events[i].now)
  }

  /** The shared clock does not run backwards. */
  predicate ClockOrdered(events: seq<Event>) {
    forall i, j | 0 <= i < j < |events| && events[i].Acquire? && events[j].Acquire? :: events[i].now <= events[j].now
  }

  /** Between two positions the owner neither acquires nor releases, and nothing is imported. */
  predicate Quiet(events: seq<Event>, i: nat, j: nat, owner: string)
    requires j <= |events|
  {
    forall k | i < k < j ::
      events[k] != Reimport && events[k] != Release(owner) && (events[k].Acquire? ==> events[k].owner != owner)
  }

  /** While nobody else's time is past the lease, the lease stays. */
  lemma {:induction false} LeaseStays(lease: Option<Held>, events: seq<Event>, i: nat, j: nat)
    requires i < j <= |events| && Succeeds(lease, events, i) && Quiet(events, i, j, events[i].owner)
    requires forall k | i < k < j && events[k].Acquire? :: Micros(events[k].now) <= Micros(events[i].until)
    ensures Run(lease, events[..j]) == Some(Held(events[i].owner, Micros(events[i].until)))
  {
    assert events[..j][..j - 1] == events[..j - 1];
    if j > i + 1 {
      LeaseStays(lease, events, i, j - 1);
    }
  }

  /**
   Exclusion over every run: after an owner has acquired the lease until a time, and before it
   releases it or acquires it again, nobody else acquires it at or before that time, unless changed
   credentials are imported in between.
   */
  lemma LeaseExcludes(lease: Option<Held>, events: seq<Event>, i: nat, j: nat)
    requires i < j < |events| && ClockOrdered(events)
    requires Succeeds(lease, events, i) && Quiet(events, i, j, events[i].owner)
    requires Succeeds(lease, events, j) && events[j].owner != events[i].owner
    ensures events[j].now > events[i].until
  {
    if Micros(events[j].now) <= Micros(events[i].until) {
      forall k | i < k < j && events[k].Acquire? ensures Micros(events[k].now) <= Micros(events[i].until) {
        assert events[k].now <= events[j].now;
      }
      LeaseStays(lease, events, i, j);
    }
  }

  /** It does not only exclude: once the microsecond of the time is over, the lease is granted. */
  lemma LeaseEnds(lease: Option<Held>, events: seq<Event>, i: nat, other: string, now: int)
    requires i < |events| && Succeeds(lease, events, i) && other != events[i].owner
    ensures Grants(Run(lease, events[..i + 1]), other, now) <==> now >= (Micros(events[i].until) + 1) * 1000
  {
    assert events[..i + 1][..i] == events[..i];
  }

  /** The pause after a failed refresh holds back other owners only. */
  lemma PauseIsNotForTheOwner(owner: string, other: string, failedAt: int, now: int)
    requires owner != other && failedAt <= now <= failedAt + FAILURE_BACKOFF
    ensures var paused := Acquired(None, owner, failedAt + FAILURE_BACKOFF, failedAt);
            Grants(paused, owner, now) && !Grants(paused, other, now)
  {
  }

  /** An import opens the lease to anybody at once. */
  lemma ReimportOpens(lease: Option<Held>, events: seq<Event>, owner: string, now: int)
    requires events != [] && events[|events| - 1] == Reimport
    ensures Grants(Run(lease, events), owner, now)
  {
  }

  // ----- One refresh -----

  /** What one process asks of the repository and the provider. */
  datatype Note =
    | AskedLease(owner: string, until: int, now: int, granted: bool)
    | CalledRefresh
    | Saved(credential: Credential)
    | GaveBack(owner: string)

  datatype Response = NoResponse | Response(access: string, refresh: string, expiresIn: int)

  /** Whether a process is between a lease it got for a refresh and the end of that refresh. */
  datatype Stage = Outside | Inside

  /** What a process may do next: its lease first, and then until it pauses or gives the lease back. */
  function Stepped(owner: string, stage: Stage, note: Note): Option<Stage> {
    match note
    case AskedLease(o, until, now, granted) =>
      if o != owner || until > now + (if stage.Outside? then REFRESH_LEASE else FAILURE_BACKOFF) then None
      else Some(if stage.Outside? == granted then Inside else Outside)
    case GaveBack(o) => if o == owner && stage.Inside? then Some(Outside) else None
    case _ => if stage.Inside? then Some(Inside) else None
  }

  /** Where a process is after what it has done. */
  function Through(owner: string, stage: Stage, log: seq<Note>): Option<Stage>
    decreases |log|
  {
    if log == [] then Some(stage)
    else
      match Stepped(owner, stage, log[0])
      case None => None
      case Some(next) => Through(owner, next, log[1..])
  }

  lemma {:induction false} ThroughAppend(owner: string, stage: Stage, a: seq<Note>, b: seq<Note>)
    requires Through(owner, stage, a).Some?
    ensures Through(owner, stage, a + b) == Through(owner, Through(owner, stage, a).value, b)
    decreases |a|
  {
    hide Stepped;
    if a == [] {
      assert a + b == b;
    } else {
      assert (a + b)[0] == a[0] && (a + b)[1..] == a[1..] + b;
      ThroughAppend(owner, Stepped(owner, stage, a[0]).value, a[1..], b);
    }
  }

  lemma ThroughOne(owner: string, stage: Stage, note: Note)
    ensures Through(owner, stage, [note]) == Stepped(owner, stage, note)
  {
    assert [note][1..] == [];
  }

  datatype Outcome = StillFresh | Adopted | Refreshed | Failed

  /** The tables that all processes share, and a log of what this process did. */
  class Repository {
    var credential: Option<Credential>
    var lease: Option<Held>
    /** The fingerprint of the configured credentials that were imported last. */
    var source: Option<string>
    var log: seq<Note>

    constructor (credential: Option<Credential>, lease: Option<Held>)
      ensures this.credential == credential && this.lease == lease && source == None && log == []
    {
      this.credential, this.lease, source, log := credential, lease, None, [];
    }

    /** Imports configured credentials that have changed; the lease goes whoever holds it. */
    method ReconcileRefreshToken(refresh: string, fingerprint: string) returns (replaced: Result<bool, string>)
      modifies this`credential, this`lease, this`source
      ensures replaced == Ok(true) <==> old(source).Some? && old(source) != Some(fingerprint) && old(credential).Some?
      ensures replaced == Ok(true) ==> credential == Some(Credential("", refresh, Some(0))) && lease == None
      ensures replaced != Ok(true) ==> credential == old(credential) && lease == old(lease)
      ensures source == if replaced.Ok? then Some(fingerprint) else old(source)
    {
      if source.None? {
        source := Some(fingerprint);
        return Ok(false);
      }
      if source.value == fingerprint {
        return Ok(false);
      }
      if credential.None? {
        return Err("credential not found");
      }
      credential, source, lease := Some(Credential("", refresh, Some(0))), Some(fingerprint), None;
      replaced := Ok(true);
    }

    /** Whatever other processes do meanwhile. */
    method Others()
      modifies this`credential, this`lease
    {
      credential, lease := *, *;
    }

    /** No answer when the tables cannot be reached. */
    method AcquireLease(owner: string, until: int, now: int) returns (answer: Option<bool>)
      modifies this`lease, this`log
      ensures answer.None? ==> lease == old(lease) && log == old(log)
      ensures answer.Some? ==> answer.value == Grants(old(lease), owner, now)
                               && lease == Acquired(old(lease), owner, until, now)
                               && log == old(log) + [AskedLease(owner, until, now, answer.value)]
    {
      var broken: bool := *;
      if broken {
        return None;
      }
      var granted := lease.None? || lease.value.until < Micros(now) || lease.value.owner == owner;
      if granted {
        lease := Some(Held(owner, Micros(until)));
      }
      log := log + [AskedLease(owner, until, now, granted)];
      answer := Some(granted);
    }

    method ReleaseLease(owner: string)
      modifies this`lease, this`log
      ensures lease == Released(old(lease), owner) && log == old(log) + [GaveBack(owner)]
    {
      if lease.Some? && lease.value.owner == owner {
        lease := None;
      }
      log := log + [GaveBack(owner)];
    }

    method SaveCredential(c: Credential) returns (ok: bool)
      modifies this`credential, this`log
      ensures ok ==> credential == Some(Stored(c)) && log == old(log) + [Saved(c)]
      ensures !ok ==> credential == old(credential) && log == old(log)
    {
      ok := *;
      if ok {
        credential := Some(Stored(c));
        log := log + [Saved(c)];
      }
    }

    method CallRefresh() returns (r: Response)
      modifies this`log
      ensures log == old(log) + [CalledRefresh]
    {
      log := log + [CalledRefresh];
      r := *;
    }
  }

  class Client {
    const repository: Repository
    const owner: string
    const refreshAhead: int
    var credential: Credential

    constructor (repository: Repository, owner: string, refreshAhead: int, credential: Credential)
      ensures this.repository == repository && this.owner == owner
      ensures this.refreshAhead == refreshAhead && this.credential == credential
    {
      this.repository, this.owner, this.refreshAhead, this.credential := repository, owner, refreshAhead, credential;
    }

    predicate NeedsRefresh(c: Credential, now: int) {
      c.expires.Some? && c.expires.value - now <= refreshAhead
    }

    /** Reads until the access token differs; the patience stands for the deadline and the context. */
    method Follow(patience: nat) returns (adopted: bool)
      modifies this, repository`credential, repository`lease
      ensures adopted ==> repository.credential == Some(credential) && credential.access != old(credential).access
      ensures !adopted ==> credential == old(credential)
    {
      var left := patience;
      while true
        invariant credential == old(credential)
        decreases left
      {
        repository.Others();
        var readable: bool := *;
        if readable && repository.credential.Some? && repository.credential.value.access != credential.access {
          credential := repository.credential.value;
          return true;
        }
        if left == 0 {
          return false;
        }
        left := left - 1;
      }
    }

    /** After a failed refresh the lease stays as a pause, or goes if that cannot be stored. */
    method PauseOrGiveBack(later: int, paused: int) returns (ghost added: seq<Note>)
      requires later <= paused
      modifies repository`lease, repository`log
      ensures repository.log == old(repository.log) + added
      ensures Through(owner, Inside, added) == Some(Outside) && CalledRefresh !in added
      ensures added == [AskedLease(owner, later + FAILURE_BACKOFF, paused, true)]
              || (added != [] && added[|added| - 1] == GaveBack(owner))
      ensures added[|added| - 1].AskedLease? ==>
                repository.lease == Some(Held(owner, Micros(later + FAILURE_BACKOFF)))
      ensures added[|added| - 1].GaveBack? && repository.lease.Some? ==> repository.lease.value.owner != owner
    {
      var held := repository.AcquireLease(owner, later + FAILURE_BACKOFF, paused);
      added := if held.Some? then [AskedLease(owner, later + FAILURE_BACKOFF, paused, held.value)] else [];
      if held != Some(true) {
        repository.ReleaseLease(owner);
        ThroughAppend(owner, Inside, added, [GaveBack(owner)]);
        added := added + [GaveBack(owner)];
      }
    }

    /** A complete answer is stored before it is used; the lease goes back in any case. */
    method SaveAndGiveBack(response: Response, later: int) returns (refreshed: bool, ghost added: seq<Note>)
      requires response.Response?
      modifies this, repository
      ensures repository.log == old(repository.log) + added
      ensures Through(owner, Inside, added) == Some(Outside) && CalledRefresh !in added
      ensures refreshed ==>
                && added == [Saved(credential), GaveBack(owner)]
                && credential.access != "" && credential.refresh != "" && credential.expires.Some?
                && credential.expires.value > later
      ensures !refreshed ==> added == [GaveBack(owner)] && credential == old(credential)
      ensures repository.lease.Some? ==> repository.lease.value.owner != owner
    {
      added, refreshed := [], false;
      if response.access != "" && response.refresh != "" && response.expiresIn > 0 {
        var next := Credential(response.access, response.refresh,
                               Some(later + response.expiresIn * 1000 * 1000 * 1000));
        var ok := repository.SaveCredential(next);
        if ok {
          added := [Saved(next)];
          credential, refreshed := next, true;
        }
      }
      repository.Others();
      repository.ReleaseLease(owner);
      if refreshed {
        ThroughOne(owner, Inside, Saved(credential));
      }
      ThroughOne(owner, Inside, GaveBack(owner));
      ThroughAppend(owner, Inside, added, [GaveBack(owner)]);
      added := added + [GaveBack(owner)];
    }

    /**
     Asks the provider for a new token only with the lease. A process without the lease succeeds only
     by taking over a stored credential with another access token. A success of its own is stored
     before it is used and the lease given back after it; a failure keeps the lease as a pause.
     */
    method EnsureFresh(now: int, asked: int, later: int, paused: int, patience: nat)
      returns (outcome: Outcome, ghost added: seq<Note>)
      requires now <= asked && later <= paused
      modifies this, repository
      ensures repository.log == old(repository.log) + added
      ensures Through(owner, Outside, added) == Some(Outside)
      ensures outcome == StillFresh <==>
                old(credential).expires.None? || old(credential).expires.value - now > refreshAhead
      ensures outcome == StillFresh ==> added == [] && credential == old(credential)
                                        && repository.credential == old(repository.credential)
                                        && repository.lease == old(repository.lease)
      ensures outcome == Adopted ==>
                && added == [AskedLease(owner, now + REFRESH_LEASE, asked, false)]
                && repository.credential == Some(credential) && credential.access != old(credential).access
      ensures outcome == Refreshed ==>
                && added == [AskedLease(owner, now + REFRESH_LEASE, asked, true), CalledRefresh, Saved(credential),
                             GaveBack(owner)]
                && credential.access != "" && credential.refresh != "" && credential.expires.Some?
                && credential.expires.value > later
                && (repository.lease.Some? ==> repository.lease.value.owner != owner)
      ensures outcome == Failed ==> credential == old(credential)
      ensures CalledRefresh in added ==> added[0] == AskedLease(owner, now + REFRESH_LEASE, asked, true)
      ensures outcome == Failed && added != [] && added[|added| - 1].AskedLease? && added[|added| - 1].granted ==>
                repository.lease == Some(Held(owner, Micros(later + FAILURE_BACKOFF)))
    {
      hide Through, Stepped;
      added := [];
      assert Through(owner, Outside, added) == Some(Outside) by { ThroughNothing(owner); }
      if !NeedsRefresh(credential, now) {
        return StillFresh, added;
      }
      repository.Others();
      var answer := repository.AcquireLease(owner, now + REFRESH_LEASE, asked);
      if answer.None? {
        return Failed, added;
      }
      added := [AskedLease(owner, now + REFRESH_LEASE, asked, answer.value)];
      ThroughLease(owner, now + REFRESH_LEASE, asked);
      if !answer.value {
        var adopted := Follow(patience);
        return if adopted then Adopted else Failed, added;
      }
      var response := repository.CallRefresh();
      added := [AskedLease(owner, now + REFRESH_LEASE, asked, true), CalledRefresh];
      repository.Others();
      ghost var more;
      if response.NoResponse? {
        more := PauseOrGiveBack(later, paused);
        outcome := Failed;
      } else {
        var refreshed;
        refreshed, more := SaveAndGiveBack(response, later);
        outcome := if refreshed then Refreshed else Failed;
      }
      ThroughAppend(owner, Outside, added, more);
      added := added + more;
    }
  }
  lemma ThroughNothing(owner: string)
    ensures Through(owner, Outside, []) == Some(Outside)
  {
  }

  lemma ThroughLease(owner: string, until: int, now: int)
    requires until <= now + REFRESH_LEASE
    ensures Through(owner, Outside, [AskedLease(owner, until, now, false)]) == Some(Outside)
    ensures Through(owner, Outside, [AskedLease(owner, until, now, true), CalledRefresh]) == Some(Inside)
  {
    var ask := AskedLease(owner, until, now, true);
    ThroughOne(owner, Outside, ask);
    ThroughOne(owner, Outside, AskedLease(owner, until, now, false));
    ThroughOne(owner, Inside, CalledRefresh);
    ThroughAppend(owner, Outside, [ask], [CalledRefresh]);
    assert [ask] + [CalledRefresh] == [ask, CalledRefresh];
  }
}
