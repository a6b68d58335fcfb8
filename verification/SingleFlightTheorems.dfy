/** Single flight over every interleaving, for both caches of module SingleFlight. */
module SingleFlightTheorems {
  import opened Wrappers
  import opened SingleFlight

  /** What a run did to a key, oldest first. Dropped gives the idle time of every entry it removes. */
  datatype Note =
    | Launched(key: string)
    | Put(key: string, value: string)
    | Dropped(ages: map<string, int>)
    | Invalidated(key: string, value: string)

  /** A cache, the last reading of its clock, and what has happened. */
  datatype System = System(cache: Cache, clock: int, log: seq<Note>)

  const START := System(EMPTY, 0, [])

  /** Which of the two caches runs, with the time to live of the first. */
  datatype Kind = Resolutions(ttl: int) | Downloads

  datatype Event =
    | Tick(to: int)
    | Look(key: string, readAt: int)
    | Begin(key: string)
    | Store(id: nat, value: string)
    | Complete(id: nat, outcome: Option<string>)
    | Invalidate(key: string, stale: string)

  predicate Unfinished(c: Cache, id: nat) {
    id < |c.all| && !c.all[id].phase.Finished?
  }

  /**
   Lookups use a clock read before the lock was taken. A resolution that succeeds is stored before
   its flight is finished.
   */
  predicate Enabled(kind: Kind, s: System, e: Event) {
    match e
    case Tick(to) => to >= s.clock
    case Look(_, readAt) => kind.Resolutions? && readAt <= s.clock
    case Begin(_) => true
    case Store(id, _) => kind.Resolutions? && id < |s.cache.all| && s.cache.all[id].phase.Running?
    case Complete(id, outcome) =>
      && id < |s.cache.all|
      && s.cache.all[id].phase == if kind.Downloads? || outcome.None? then Phase.Running else Stored(outcome.value)
    case Invalidate(_, _) => kind.Downloads?
  }

  function Ages(entries: map<string, Entry>, keys: set<string>, now: int): map<string, int> {
    map k | k in keys && k in entries :: now - entries[k].lastAccess
  }

  function VisitNote(entries: map<string, Entry>, key: string, now: int, ttl: int): Note {
    Dropped(if ttl > 0 && key in entries && IsIdle(entries[key], now, ttl)
            then map[key := now - entries[key].lastAccess] else map[])
  }

  function After(kind: Kind, s: System, e: Event): System
    requires Enabled(kind, s, e)
  {
    var c := s.cache;
    match e
    case Tick(to) => s.(clock := to)
    case Look(key, readAt) =>
      System(c.(entries := Visited(c.entries, key, readAt, kind.ttl)), s.clock,
             s.log + [VisitNote(c.entries, key, readAt, kind.ttl)])
    case Begin(key) =>
      var (begun, c') :=
        if kind.Resolutions? then BeginResolution(c, key, s.clock, kind.ttl) else BeginDownload(c, key);
      var visited := if kind.Resolutions? then s.log + [VisitNote(c.entries, key, s.clock, kind.ttl)] else s.log;
      System(c', s.clock, if begun.Leads? then visited + [Launched(key)] else visited)
    case Store(id, value) =>
      var c' := StoreResolution(c, id, value, s.clock, kind.ttl);
      if kind.ttl <= 0 then s.(cache := c')
      else
        var idle := IdleKeys(c.entries, s.clock, kind.ttl);
        System(c', s.clock, s.log + [Dropped(Ages(c.entries, idle, s.clock))] + [Put(c.all[id].key, value)])
    case Complete(id, outcome) =>
      if kind.Resolutions? || outcome.None? then s.(cache := Finish(c, id, outcome))
      else System(FinishDownload(c, id, outcome, s.clock), s.clock, s.log + [Put(c.all[id].key, outcome.value)])
    case Invalidate(key, stale) =>
      if key in c.entries && c.entries[key].value == stale
      then System(InvalidateDownload(c, key, stale), s.clock, s.log + [Invalidated(key, stale)])
      else s.(cache := InvalidateDownload(c, key, stale))
  }

  ghost predicate Legal(kind: Kind, s: System, events: seq<Event>)
    decreases |events|
  {
    events == [] || (Enabled(kind, s, events[0]) && Legal(kind, After(kind, s, events[0]), events[1..]))
  }

  ghost function Final(kind: Kind, s: System, events: seq<Event>): System
    requires Legal(kind, s, events)
    decreases |events|
  {
    if events == [] then s else Final(kind, After(kind, s, events[0]), events[1..])
  }

  // ----- Invariants -----

  /** A key has a flight exactly while that flight is unfinished. */
  ghost predicate FlightsMatch(c: Cache) {
    && (forall k | k in c.flights :: Unfinished(c, c.flights[k]) && c.all[c.flights[k]].key == k)
    && (forall id: nat | Unfinished(c, id) :: c.all[id].key in c.flights && c.flights[c.all[id].key] == id)
  }

  predicate Running(c: Cache, id: nat) {
    id < |c.all| && c.all[id].phase.Running?
  }

  function Keep(before: Option<string>, n: Note, key: string): Option<string> {
    match n
    case Launched(_) => before
    case Put(k, v) => if k == key then Some(v) else before
    case Dropped(ages) => if key in ages then None else before
    case Invalidated(k, _) => if k == key then None else before
  }

  /** The value that the notes say is stored for a key. */
  function Kept(log: seq<Note>, key: string): Option<string> {
    if log == [] then None else Keep(Kept(log[..|log| - 1], key), log[|log| - 1], key)
  }

  function Await(before: bool, n: Note, key: string): bool {
    match n
    case Launched(k) => k == key || before
    case Put(k, _) => k != key && before
    case _ => before
  }

  /** Of the launches and stores of a key the last one is a launch. */
  function Awaited(log: seq<Note>, key: string): bool {
    log != [] && Await(Awaited(log[..|log| - 1], key), log[|log| - 1], key)
  }

  function ValueOf(entries: map<string, Entry>, key: string): Option<string> {
    if key in entries then Some(entries[key].value) else None
  }

  ghost predicate LogMatches(log: seq<Note>, c: Cache) {
    && (forall k :: Kept(log, k) == ValueOf(c.entries, k))
    && (forall id: nat | Running(c, id) :: Awaited(log, c.all[id].key))
  }

  /** The URL cache ignores an empty URL even when it has stored one. */
  predicate Usable(kind: Kind, value: Option<string>) {
    value.Some? && (kind.Resolutions? || value.value != "")
  }

  predicate Caching(kind: Kind) {
    kind.Downloads? || kind.ttl > 0
  }

  predicate JustifiedAt(kind: Kind, past: seq<Note>, n: Note) {
    match n
    case Launched(k) => Caching(kind) ==> !Usable(kind, Kept(past, k))
    case Put(k, _) => Awaited(past, k)
    case Dropped(ages) => kind.Resolutions? && forall k | k in ages :: ages[k] >= kind.ttl > 0
    case Invalidated(k, v) => kind.Downloads? && Kept(past, k) == Some(v)
  }

  /** Every note had its reason when it was written. */
  predicate Justified(kind: Kind, log: seq<Note>) {
    forall i | 0 <= i < |log| :: JustifiedAt(kind, log[..i], log[i])
  }

  /** What a flight has found is stored before anybody who waits for the flight is told. */
  predicate Published(kind: Kind, log: seq<Note>, f: Flight) {
    Caching(kind) ==>
      match f.phase
      case Running => true
      case Stored(v) => Put(f.key, v) in log
      case Finished(outcome) => outcome.Some? ==> Put(f.key, outcome.value) in log
  }

  ghost predicate Inv(kind: Kind, s: System) {
    && FlightsMatch(s.cache) && LogMatches(s.log, s.cache) && Justified(kind, s.log)
    && forall id | 0 <= id < |s.cache.all| :: Published(kind, s.log, s.cache.all[id])
  }

  // ----- One note at a time -----

  /** The cache before and after one note. */
  ghost predicate Follows(c: Cache, n: Note, c': Cache) {
    && (forall k :: ValueOf(c'.entries, k) == Keep(ValueOf(c.entries, k), n, k))
    && (forall id: nat | Running(c', id) ::
          || n == Launched(c'.all[id].key)
          || (Running(c, id) && c.all[id].key == c'.all[id].key && (n.Put? ==> n.key != c'.all[id].key)))
  }

  lemma Noted(kind: Kind, log: seq<Note>, c: Cache, n: Note, c': Cache)
    requires LogMatches(log, c) && Justified(kind, log)
    requires JustifiedAt(kind, log, n) && Follows(c, n, c')
    ensures LogMatches(log + [n], c') && Justified(kind, log + [n])
  {
    var log' := log + [n];
    assert log'[..|log|] == log;
    forall i | 0 <= i < |log'| ensures JustifiedAt(kind, log'[..i], log'[i]) {
      assert i < |log| ==> log'[..i] == log[..i];
    }
    hide Keep, ValueOf, JustifiedAt;
    forall k ensures Kept(log', k) == ValueOf(c'.entries, k) {
      assert Kept(log', k) == Keep(Kept(log, k), n, k);
    }
    forall id: nat | Running(c', id) ensures Awaited(log', c'.all[id].key) {
      assert Awaited(log', c'.all[id].key) == Await(Awaited(log, c'.all[id].key), n, c'.all[id].key);
    }
  }

  lemma VisitNoted(kind: Kind, log: seq<Note>, c: Cache, key: string, now: int)
    requires kind.Resolutions? && LogMatches(log, c) && Justified(kind, log)
    ensures var log' := log + [VisitNote(c.entries, key, now, kind.ttl)];
            var c' := c.(entries := Visited(c.entries, key, now, kind.ttl));
            LogMatches(log', c') && Justified(kind, log')
  {
    Noted(kind, log, c, VisitNote(c.entries, key, now, kind.ttl),
          c.(entries := Visited(c.entries, key, now, kind.ttl)));
  }

  lemma FlightsKept(kind: Kind, s: System, e: Event)
    requires FlightsMatch(s.cache) && Enabled(kind, s, e)
    ensures FlightsMatch(After(kind, s, e).cache)
  {
    if e.Begin? {
      FlightsBegun(kind, s, e.key);
    } else if e.Store? || e.Complete? {
      FlightChanged(kind, s, e);
    } else {
      hide Visited, VisitNote;
    }
  }

  lemma FlightsBegun(kind: Kind, s: System, key: string)
    requires FlightsMatch(s.cache)
    ensures FlightsMatch(After(kind, s, Begin(key)).cache)
  {
    hide Visited, FreshValue, VisitNote;
  }

  lemma FlightChanged(kind: Kind, s: System, e: Event)
    requires FlightsMatch(s.cache) && Enabled(kind, s, e) && (e.Store? || e.Complete?)
    ensures FlightsMatch(After(kind, s, e).cache)
  {
    hide IdleKeys, Ages;
  }

  lemma BeginNoted(kind: Kind, s: System, key: string)
    requires Inv(kind, s)
    ensures var s' := After(kind, s, Begin(key)); LogMatches(s'.log, s'.cache) && Justified(kind, s'.log)
  {
    var log, c := s.log, s.cache;
    if kind.Resolutions? {
      VisitNoted(kind, log, c, key, s.clock);
      log := log + [VisitNote(c.entries, key, s.clock, kind.ttl)];
      c := c.(entries := Visited(c.entries, key, s.clock, kind.ttl));
      if FreshValue(s.cache.entries, key, s.clock, kind.ttl).None? && key !in c.flights {
        BoardNoted(kind, log, c, key);
      }
    } else if !Usable(kind, ValueOf(c.entries, key)) && key !in c.flights {
      BoardNoted(kind, log, c, key);
    }
  }

  lemma BoardNoted(kind: Kind, log: seq<Note>, c: Cache, key: string)
    requires LogMatches(log, c) && Justified(kind, log)
    requires key !in c.flights && (Caching(kind) ==> !Usable(kind, ValueOf(c.entries, key)))
    ensures LogMatches(log + [Launched(key)], Boarded(c, key)) && Justified(kind, log + [Launched(key)])
  {
    Noted(kind, log, c, Launched(key), Boarded(c, key));
  }

  lemma StoreNoted(kind: Kind, s: System, id: nat, value: string)
    requires Inv(kind, s) && Enabled(kind, s, Store(id, value))
    ensures var s' := After(kind, s, Store(id, value)); LogMatches(s'.log, s'.cache) && Justified(kind, s'.log)
  {
    if kind.ttl > 0 {
      var c := s.cache;
      var idle := IdleKeys(c.entries, s.clock, kind.ttl);
      var purged := c.(entries := c.entries - idle);
      var note := Dropped(Ages(c.entries, idle, s.clock));
      Noted(kind, s.log, c, note, purged);
      PutNoted(kind, s.log + [note], purged, id, value, StoreResolution(c, id, value, s.clock, kind.ttl));
    }
  }

  lemma PutNoted(kind: Kind, log: seq<Note>, c: Cache, id: nat, value: string, c': Cache)
    requires LogMatches(log, c) && Justified(kind, log) && FlightsMatch(c) && Running(c, id)
    requires |c'.all| == |c.all| && !c'.all[id].phase.Running?
    requires forall other | 0 <= other < |c.all| && other != id :: c'.all[other] == c.all[other]
    requires forall k :: ValueOf(c'.entries, k) == if k == c.all[id].key then Some(value) else ValueOf(c.entries, k)
    ensures LogMatches(log + [Put(c.all[id].key, value)], c') && Justified(kind, log + [Put(c.all[id].key, value)])
  {
    Noted(kind, log, c, Put(c.all[id].key, value), c');
  }

  lemma CompleteNoted(kind: Kind, s: System, id: nat, outcome: Option<string>)
    requires Inv(kind, s) && Enabled(kind, s, Complete(id, outcome))
    ensures var s' := After(kind, s, Complete(id, outcome)); LogMatches(s'.log, s'.cache) && Justified(kind, s'.log)
  {
    if kind.Downloads? && outcome.Some? {
      PutNoted(kind, s.log, s.cache, id, outcome.value, FinishDownload(s.cache, id, outcome, s.clock));
    }
  }

  lemma InvalidateNoted(kind: Kind, s: System, key: string, stale: string)
    requires Inv(kind, s) && Enabled(kind, s, Invalidate(key, stale))
    ensures var s' := After(kind, s, Invalidate(key, stale)); LogMatches(s'.log, s'.cache) && Justified(kind, s'.log)
  {
    if key in s.cache.entries && s.cache.entries[key].value == stale {
      Noted(kind, s.log, s.cache, Invalidated(key, stale), InvalidateDownload(s.cache, key, stale));
    }
  }

  lemma PublishedKept(kind: Kind, s: System, e: Event)
    requires Inv(kind, s) && Enabled(kind, s, e)
    ensures var s' := After(kind, s, e);
            forall id | 0 <= id < |s'.cache.all| :: Published(kind, s'.log, s'.cache.all[id])
  {
    hide Visited, FreshValue, IdleKeys, VisitNote, Ages;
    var s' := After(kind, s, e);
    assert forall n | n in s.log :: n in s'.log;
  }

  lemma Step(kind: Kind, s: System, e: Event)
    requires Inv(kind, s) && Enabled(kind, s, e)
    ensures Inv(kind, After(kind, s, e))
  {
    FlightsKept(kind, s, e);
    PublishedKept(kind, s, e);
    hide Visited, FreshValue, IdleKeys, VisitNote, Ages, Justified, Published, FlightsMatch, Boarded;
    match e
    case Tick(_) =>
    case Look(key, readAt) => VisitNoted(kind, s.log, s.cache, key, readAt);
    case Begin(key) => BeginNoted(kind, s, key);
    case Store(id, value) => StoreNoted(kind, s, id, value);
    case Complete(id, outcome) => CompleteNoted(kind, s, id, outcome);
    case Invalidate(key, stale) => InvalidateNoted(kind, s, key, stale);
  }

  lemma {:induction false} AlwaysInv(kind: Kind, s: System, events: seq<Event>)
    requires Inv(kind, s) && Legal(kind, s, events)
    ensures Inv(kind, Final(kind, s, events))
    decreases |events|
  {
    if events != [] {
      Step(kind, s, events[0]);
      AlwaysInv(kind, After(kind, s, events[0]), events[1..]);
    }
  }

  // ----- Main results -----

  /** In every interleaving a key has at most one unfinished flight, and flights lists exactly those. */
  lemma SingleFlightAlways(kind: Kind, events: seq<Event>, i: nat, j: nat)
    requires Legal(kind, START, events)
    ensures var c := Final(kind, START, events).cache;
            && FlightsMatch(c)
            && (Unfinished(c, i) && Unfinished(c, j) && c.all[i].key == c.all[j].key ==> i == j)
  {
    AlwaysInv(kind, START, events);
  }

  /** A lookup answers with what the latest flight that stored anything for the key has stored. */
  lemma HitIsLatest(kind: Kind, events: seq<Event>, key: string)
    requires Legal(kind, START, events)
    ensures var s := Final(kind, START, events);
            var begun := if kind.Resolutions? then BeginResolution(s.cache, key, s.clock, kind.ttl).0
                         else BeginDownload(s.cache, key).0;
            begun.Hit? ==> Kept(s.log, key) == Some(begun.value) && Put(key, begun.value) in s.log
  {
    AlwaysInv(kind, START, events);
    KeptWasPut(Final(kind, START, events).log, key);
  }

  lemma {:induction false} KeptWasPut(log: seq<Note>, key: string)
    ensures Kept(log, key).Some? ==> Put(key, Kept(log, key).value) in log
  {
    if log != [] {
      KeptWasPut(log[..|log| - 1], key);
    }
  }

  /** What a caller is told that asks for a key now. */
  function Asked(kind: Kind, s: System, key: string): Begun {
    if kind.Resolutions? then BeginResolution(s.cache, key, s.clock, kind.ttl).0 else BeginDownload(s.cache, key).0
  }

  /**
   In every interleaving a caller joins the unfinished flight of its own key; it leads a new flight for
   that key exactly if there is none, and nothing usable is stored.
   */
  lemma JoinsOwnFlight(kind: Kind, events: seq<Event>, key: string)
    requires Legal(kind, START, events)
    ensures var s := Final(kind, START, events);
            var c, after := s.cache, After(kind, s, Begin(key)).cache;
            match Asked(kind, s, key)
            case Hit(value) => key in c.entries && c.entries[key].value == value && after.all == c.all
            case Joined(id) => Unfinished(c, id) && c.all[id].key == key && after.all == c.all
            case Leads(id) =>
              && id == |c.all| && after.all == c.all + [Flight(key, Phase.Running)]
              && forall other: nat | Unfinished(c, other) :: c.all[other].key != key
  {
    AlwaysInv(kind, START, events);
    var s := Final(kind, START, events);
    hide Visited, Inv, LogMatches, Justified, Published;
    assert FlightsMatch(s.cache) by { SingleFlightAlways(kind, events, 0, 0); }
  }

  /** A flight keeps its key. */
  lemma {:induction false} KeyStays(kind: Kind, s: System, events: seq<Event>, id: nat)
    requires Legal(kind, s, events) && id < |s.cache.all|
    ensures id < |Final(kind, s, events).cache.all|
    ensures Final(kind, s, events).cache.all[id].key == s.cache.all[id].key
    decreases |events|
  {
    if events != [] {
      KeyStep(kind, s, events[0], id);
      KeyStays(kind, After(kind, s, events[0]), events[1..], id);
    }
  }

  lemma KeyStep(kind: Kind, s: System, e: Event, id: nat)
    requires Enabled(kind, s, e) && id < |s.cache.all|
    ensures id < |After(kind, s, e).cache.all| && After(kind, s, e).cache.all[id].key == s.cache.all[id].key
  {
    hide Visited, FreshValue, IdleKeys, VisitNote, Ages;
  }

  /**
   Whoever joins or leads a flight is in the end told what that flight found for the caller's own key, and a
   success was stored under that key before.
   */
  lemma CallerSeesOwnKey(kind: Kind, before: seq<Event>, key: string, later: seq<Event>, id: nat)
    requires Legal(kind, START, before) && Caching(kind)
    requires var s := Final(kind, START, before);
             Legal(kind, After(kind, s, Begin(key)), later) && Asked(kind, s, key) in {Joined(id), Leads(id)}
    ensures var end := Final(kind, After(kind, Final(kind, START, before), Begin(key)), later);
            && id < |end.cache.all| && end.cache.all[id].key == key
            && (end.cache.all[id].phase.Finished? && end.cache.all[id].phase.outcome.Some? ==>
                  Put(key, end.cache.all[id].phase.outcome.value) in end.log)
  {
    hide *;
    var s := Final(kind, START, before);
    BeginIsEnabled(kind, s, key);
    var begun := After(kind, s, Begin(key));
    StartInv(kind);
    AlwaysInv(kind, START, before);
    JoinsOwnFlight(kind, before, key);
    Step(kind, s, Begin(key));
    KeyStays(kind, begun, later, id);
    AlwaysInv(kind, begun, later);
    OutcomeWasPut(kind, Final(kind, begun, later), id);
  }

  lemma StartInv(kind: Kind)
    ensures Inv(kind, START)
  {
  }

  lemma BeginIsEnabled(kind: Kind, s: System, key: string)
    ensures Enabled(kind, s, Begin(key))
    ensures forall id: nat | Unfinished(s.cache, id) :: id < |s.cache.all|
  {
  }

  lemma OutcomeWasPut(kind: Kind, s: System, id: nat)
    requires Inv(kind, s) && Caching(kind) && id < |s.cache.all|
    ensures var f := s.cache.all[id];
            f.phase.Finished? && f.phase.outcome.Some? ==> Put(f.key, f.phase.outcome.value) in s.log
  {
    assert Published(kind, s.log, s.cache.all[id]);
  }

  /** Waiters of a finished flight see one outcome for ever, and a success was stored first. */
  lemma {:induction false} OutcomeIsFinal(kind: Kind, s: System, events: seq<Event>, id: nat)
    requires Legal(kind, s, events) && Inv(kind, s)
    requires id < |s.cache.all| && s.cache.all[id].phase.Finished?
    ensures var s' := Final(kind, s, events);
            && id < |s'.cache.all| && s'.cache.all[id] == s.cache.all[id]
            && Published(kind, s'.log, s'.cache.all[id])
    decreases |events|
  {
    if events != [] {
      Step(kind, s, events[0]);
      FinishedStays(kind, s, events[0], id);
      OutcomeIsFinal(kind, After(kind, s, events[0]), events[1..], id);
    }
  }

  lemma FinishedStays(kind: Kind, s: System, e: Event, id: nat)
    requires Enabled(kind, s, e)
    requires id < |s.cache.all| && s.cache.all[id].phase.Finished?
    ensures id < |After(kind, s, e).cache.all| && After(kind, s, e).cache.all[id] == s.cache.all[id]
  {
  }

  /** The note takes the key's value out of the cache. */
  predicate Removes(n: Note, key: string) {
    match n
    case Dropped(ages) => key in ages
    case Invalidated(k, _) => k == key
    case _ => false
  }

  /** Without a removal and without a launch nothing touches a stored value. */
  lemma {:induction false} StoredStays(kind: Kind, log: seq<Note>, i: nat, t: nat, key: string)
    requires Justified(kind, log) && i < t <= |log|
    requires log[i].Put? && log[i].key == key
    requires forall m | i < m < t :: !Removes(log[m], key) && log[m] != Launched(key)
    ensures Kept(log[..t], key) == Some(log[i].value) && !Awaited(log[..t], key)
  {
    var before := log[..t - 1];
    assert log[..t][..t - 1] == before;
    if i + 1 < t {
      StoredStays(kind, log, i, t - 1, key);
      assert JustifiedAt(kind, before, log[t - 1]);
    }
  }

  /**
   After a usable value has been stored for a key, nothing is launched for that key until something
   has removed the value.
   */
  lemma {:induction false} RelaunchNeedsRemoval(kind: Kind, log: seq<Note>, i: nat, j: nat, key: string)
    requires Justified(kind, log) && Caching(kind) && i < j < |log|
    requires log[i].Put? && log[i].key == key && Usable(kind, Some(log[i].value))
    requires log[j] == Launched(key)
    ensures exists m :: i < m < j && Removes(log[m], key)
    decreases j
  {
    assert JustifiedAt(kind, log[..j], log[j]);
    if exists m :: i < m < j && log[m] == Launched(key) {
      var m :| i < m < j && log[m] == Launched(key);
      RelaunchNeedsRemoval(kind, log, i, m, key);
    } else if forall m | i < m < j :: !Removes(log[m], key) {
      StoredStays(kind, log, i, j, key);
    }
  }

  /** The note removes a value of the key for the only reason its cache knows. */
  predicate Excuses(kind: Kind, past: seq<Note>, n: Note, key: string) {
    match n
    case Dropped(ages) => kind.Resolutions? && key in ages && ages[key] >= kind.ttl > 0
    case Invalidated(k, v) => kind.Downloads? && k == key && Kept(past, key) == Some(v)
    case _ => false
  }

  /**
   Over every run: with a positive time to live a second resolution of a key that succeeded starts
   only after a purge or lookup has found the stored entry idle for at least the time to live; a
   second URL request only after somebody has invalidated the value then stored.
   */
  lemma NoNeedlessLaunch(kind: Kind, events: seq<Event>, i: nat, j: nat, key: string)
    requires Legal(kind, START, events) && Caching(kind)
    requires i < j < |Final(kind, START, events).log|
    requires var log := Final(kind, START, events).log;
             log[i].Put? && log[i].key == key && Usable(kind, Some(log[i].value)) && log[j] == Launched(key)
    ensures var log := Final(kind, START, events).log;
            exists m :: i < m < j && Excuses(kind, log[..m], log[m], key)
  {
    AlwaysInv(kind, START, events);
    var log := Final(kind, START, events).log;
    RelaunchNeedsRemoval(kind, log, i, j, key);
    var m :| i < m < j && Removes(log[m], key);
    assert JustifiedAt(kind, log[..m], log[m]);
    assert Excuses(kind, log[..m], log[m], key);
  }

  // ----- How old a lookup's clock may be -----

  /** The lookup hits with a reading older than the entry's last access. */
  predicate StepsBack(kind: Kind, s: System, e: Event) {
    && e.Look? && kind.Resolutions?
    && FreshValue(s.cache.entries, e.key, e.readAt, kind.ttl).Some?
    && e.readAt < s.cache.entries[e.key].lastAccess
  }

  /** And the entry is still in use by the clock of now. */
  predicate Harms(kind: Kind, s: System, e: Event) {
    StepsBack(kind, s, e) && s.clock < s.cache.entries[e.key].lastAccess + kind.ttl
  }

  ghost predicate MovesBack(before: map<string, Entry>, after: map<string, Entry>) {
    exists k | k in before && k in after :: after[k].lastAccess < before[k].lastAccess
  }

  ghost predicate InThePast(s: System) {
    forall k | k in s.cache.entries :: s.cache.entries[k].lastAccess <= s.clock
  }

  /** A step sets some entry's last access back exactly when it is such a lookup. */
  lemma MovesBackIff(kind: Kind, s: System, e: Event)
    requires InThePast(s) && Enabled(kind, s, e) && kind.Resolutions?
    ensures MovesBack(s.cache.entries, After(kind, s, e).cache.entries) <==> StepsBack(kind, s, e)
    ensures InThePast(After(kind, s, e))
  {
    hide VisitNote, Ages;
    if StepsBack(kind, s, e) {
      assert After(kind, s, e).cache.entries[e.key].lastAccess == e.readAt;
    }
  }

  /** When each key was last hit or stored, by the clock reading of the call that did it. */
  function Uses(kind: Kind, s: System, e: Event, uses: map<string, int>): map<string, int>
    requires Enabled(kind, s, e)
  {
    match e
    case Look(key, readAt) =>
      if FreshValue(s.cache.entries, key, readAt, kind.ttl).Some? then Later(uses, key, readAt) else uses
    case Begin(key) =>
      if kind.Resolutions? && FreshValue(s.cache.entries, key, s.clock, kind.ttl).Some?
      then Later(uses, key, s.clock)
      else uses
    case Store(id, _) => Later(uses, s.cache.all[id].key, s.clock)
    case _ => uses
  }

  function Later(uses: map<string, int>, key: string, at: int): map<string, int> {
    uses[key := if key in uses && uses[key] > at then uses[key] else at]
  }

  ghost function AllUses(kind: Kind, s: System, events: seq<Event>, uses: map<string, int>): map<string, int>
    requires Legal(kind, s, events)
    decreases |events|
  {
    if events == [] then uses
    else AllUses(kind, After(kind, s, events[0]), events[1..], Uses(kind, s, events[0], uses))
  }

  /** Resolving the key now starts a flight although the key was in use within the time to live. */
  predicate RelaunchesEarly(kind: Kind, s: System, uses: map<string, int>, key: string) {
    && kind.Resolutions? && key in uses && s.clock - uses[key] < kind.ttl
    && BeginResolution(s.cache, key, s.clock, kind.ttl).0.Leads?
  }

  /** No lookup on the way harms. */
  ghost predicate Harmless(kind: Kind, s: System, events: seq<Event>)
    requires Legal(kind, s, events)
    decreases |events|
  {
    events == [] || (!Harms(kind, s, events[0]) && Harmless(kind, After(kind, s, events[0]), events[1..]))
  }

  /** A key used within the time to live has an entry that shows its last use. */
  ghost predicate Shown(kind: Kind, s: System, uses: map<string, int>)
    requires kind.Resolutions?
  {
    && InThePast(s)
    && (forall k | k in s.cache.entries :: k in uses && s.cache.entries[k].lastAccess <= uses[k])
    && (forall k | k in uses :: s.clock - uses[k] >= kind.ttl ||
                                (k in s.cache.entries && s.cache.entries[k].lastAccess == uses[k]))
  }

  lemma ShownStep(kind: Kind, s: System, e: Event, uses: map<string, int>)
    requires kind.Resolutions? && kind.ttl > 0 && Shown(kind, s, uses) && Enabled(kind, s, e) && !Harms(kind, s, e)
    ensures Shown(kind, After(kind, s, e), Uses(kind, s, e, uses))
  {
    match e
    case Look(key, readAt) =>
      VisitShown(kind, s, uses, key, readAt);
      hide Visited, FreshValue, VisitNote, Shown;
      SameShown(kind, s.(cache := s.cache.(entries := Visited(s.cache.entries, key, readAt, kind.ttl))),
                After(kind, s, e), Uses(kind, s, e, uses));
    case Begin(key) =>
      VisitShown(kind, s, uses, key, s.clock);
      hide Visited, FreshValue, VisitNote, Shown;
      SameShown(kind, s.(cache := s.cache.(entries := Visited(s.cache.entries, key, s.clock, kind.ttl))),
                After(kind, s, e), Uses(kind, s, e, uses));
    case Store(_, _) => StoreShown(kind, s, e, uses);
    case _ =>
  }

  lemma SameShown(kind: Kind, s: System, s': System, uses: map<string, int>)
    requires kind.Resolutions? && Shown(kind, s, uses) && s'.cache.entries == s.cache.entries && s'.clock == s.clock
    ensures Shown(kind, s', uses)
  {
  }

  lemma VisitShown(kind: Kind, s: System, uses: map<string, int>, key: string, readAt: int)
    requires kind.Resolutions? && kind.ttl > 0 && Shown(kind, s, uses) && readAt <= s.clock
    requires !Harms(kind, s, Look(key, readAt))
    ensures var used :=
              if FreshValue(s.cache.entries, key, readAt, kind.ttl).Some? then Later(uses, key, readAt) else uses;
            Shown(kind, s.(cache := s.cache.(entries := Visited(s.cache.entries, key, readAt, kind.ttl))), used)
  {
  }

  lemma StoreShown(kind: Kind, s: System, e: Event, uses: map<string, int>)
    requires kind.Resolutions? && kind.ttl > 0 && Shown(kind, s, uses) && e.Store? && Enabled(kind, s, e)
    ensures Shown(kind, After(kind, s, e), Uses(kind, s, e, uses))
  {
    hide Ages;
  }

  lemma {:induction false} ShownAlways(kind: Kind, s: System, events: seq<Event>, uses: map<string, int>)
    requires kind.Resolutions? && kind.ttl > 0 && Shown(kind, s, uses) && Legal(kind, s, events)
    requires Harmless(kind, s, events)
    ensures Shown(kind, Final(kind, s, events), AllUses(kind, s, events, uses))
    decreases |events|
  {
    if events != [] {
      ShownStep(kind, s, events[0], uses);
      ShownAlways(kind, After(kind, s, events[0]), events[1..], Uses(kind, s, events[0], uses));
    }
  }

  /** A resolution that is running has no entry. */
  ghost predicate RunningAbsent(c: Cache) {
    forall id: nat | Running(c, id) :: c.all[id].key !in c.entries
  }

  lemma AbsentStep(kind: Kind, s: System, e: Event)
    requires RunningAbsent(s.cache) && FlightsMatch(s.cache) && Enabled(kind, s, e) && kind.Resolutions? && kind.ttl > 0
    ensures RunningAbsent(After(kind, s, e).cache)
  {
    hide IdleKeys, VisitNote, Ages;
  }

  lemma {:induction false} AbsentAlways(kind: Kind, s: System, events: seq<Event>)
    requires RunningAbsent(s.cache) && FlightsMatch(s.cache) && Legal(kind, s, events) && kind.Resolutions?
             && kind.ttl > 0
    ensures RunningAbsent(Final(kind, s, events).cache) && FlightsMatch(Final(kind, s, events).cache)
    decreases |events|
  {
    if events != [] {
      AbsentStep(kind, s, events[0]);
      FlightsKept(kind, s, events[0]);
      AbsentAlways(kind, After(kind, s, events[0]), events[1..]);
    }
  }

  lemma ShownIsInTime(kind: Kind, s: System, uses: map<string, int>, key: string)
    requires kind.Resolutions? && kind.ttl > 0 && Shown(kind, s, uses)
    ensures !RelaunchesEarly(kind, s, uses, key)
  {
  }

  /** No continuation without a harmful lookup resolves a key early. */
  ghost predicate AlwaysInTime(kind: Kind, s: System, uses: map<string, int>) {
    forall events, key | Legal(kind, s, events) && Harmless(kind, s, events) ::
      !RelaunchesEarly(kind, Final(kind, s, events), AllUses(kind, s, events, uses), key)
  }

  /** Over every run without a harmful lookup no key is resolved again within the time to live of its last use. */
  lemma NoEarlyRelaunch(ttl: int, events: seq<Event>, key: string)
    requires ttl > 0 && Legal(Resolutions(ttl), START, events) && Harmless(Resolutions(ttl), START, events)
    ensures !RelaunchesEarly(Resolutions(ttl), Final(Resolutions(ttl), START, events),
                             AllUses(Resolutions(ttl), START, events, map[]), key)
  {
    var kind := Resolutions(ttl);
    ShownAlways(kind, START, events, map[]);
    ShownIsInTime(kind, Final(kind, START, events), AllUses(kind, START, events, map[]), key);
  }

  /** An entry without a flight is found idle once its time to live has passed. */
  lemma IdleInTime(kind: Kind, s: System, uses: map<string, int>, key: string, until: int, to: int)
    requires kind.Resolutions? && kind.ttl > 0 && key !in s.cache.flights
    requires key in s.cache.entries && key in uses
    requires s.cache.entries[key].lastAccess + kind.ttl <= to < until + kind.ttl && until <= uses[key] && s.clock <= to
    ensures Legal(kind, s, [Tick(to)]) && Harmless(kind, s, [Tick(to)])
    ensures RelaunchesEarly(kind, Final(kind, s, [Tick(to)]), AllUses(kind, s, [Tick(to)], uses), key)
  {
    var s' := After(kind, s, Tick(to));
    assert [Tick(to)][1..] == [];
    assert AllUses(kind, s', [], Uses(kind, s, Tick(to), uses)) == uses && Final(kind, s', []) == s';
    assert AllUses(kind, s, [Tick(to)], uses) == uses && Final(kind, s, [Tick(to)]) == s';
    assert BeginResolution(s'.cache, key, s'.clock, kind.ttl).0.Leads?;
  }

  /** Any entry set back while in use can be found idle too early. */
  lemma SetBackIsFoundIdle(kind: Kind, s: System, uses: map<string, int>, key: string, until: int)
    returns (events: seq<Event>)
    requires kind.Resolutions? && kind.ttl > 0 && FlightsMatch(s.cache) && RunningAbsent(s.cache)
    requires key in s.cache.entries && key in uses && s.cache.entries[key].lastAccess <= s.clock
    requires s.cache.entries[key].lastAccess < until <= uses[key] && s.clock < until + kind.ttl
    ensures Legal(kind, s, events) && Harmless(kind, s, events)
    ensures RelaunchesEarly(kind, Final(kind, s, events), AllUses(kind, s, events, uses), key)
  {
    var idleAt := s.cache.entries[key].lastAccess + kind.ttl;
    var to := if idleAt > s.clock then idleAt else s.clock;
    events := [Tick(to)];
    if key in s.cache.flights {
      var id := s.cache.flights[key];
      assert Unfinished(s.cache, id) && !Running(s.cache, id);
      var done := Complete(id, Some(s.cache.all[id].phase.value));
      var s' := After(kind, s, done);
      assert s'.cache.entries == s.cache.entries && s'.clock == s.clock && key !in s'.cache.flights;
      IdleInTime(kind, s', uses, key, until, to);
      assert ([done] + events)[0] == done && ([done] + events)[1..] == events;
      events := [done] + events;
    } else {
      IdleInTime(kind, s, uses, key, until, to);
    }
  }

  /**
   After any run without a harmful lookup, one more lookup leaves every further such run without an
   early resolution exactly when it does not itself hit an entry, still in use, with an older reading.
   */
  lemma InTimeIffHarmless(ttl: int, before: seq<Event>, key: string, readAt: int)
    requires ttl > 0 && Legal(Resolutions(ttl), START, before) && Harmless(Resolutions(ttl), START, before)
    requires Enabled(Resolutions(ttl), Final(Resolutions(ttl), START, before), Look(key, readAt))
    ensures var kind := Resolutions(ttl);
            var s, uses := Final(kind, START, before), AllUses(kind, START, before, map[]);
            var look := Look(key, readAt);
            AlwaysInTime(kind, After(kind, s, look), Uses(kind, s, look, uses)) <==> !Harms(kind, s, look)
  {
    var kind, look := Resolutions(ttl), Look(key, readAt);
    var s, uses := Final(kind, START, before), AllUses(kind, START, before, map[]);
    ShownAlways(kind, START, before, map[]);
    var s', uses' := After(kind, s, look), Uses(kind, s, look, uses);
    if Harms(kind, s, look) {
      AbsentAlways(kind, START, before);
      AbsentStep(kind, s, look);
      FlightsKept(kind, s, look);
      var events := SetBackIsFoundIdle(kind, s', uses', key, s.cache.entries[key].lastAccess);
      assert RelaunchesEarly(kind, Final(kind, s', events), AllUses(kind, s', events, uses'), key);
    } else {
      ShownStep(kind, s, look, uses);
      forall events, k | Legal(kind, s', events) && Harmless(kind, s', events)
        ensures !RelaunchesEarly(kind, Final(kind, s', events), AllUses(kind, s', events, uses'), k)
      {
        ShownAlways(kind, s', events, uses');
        ShownIsInTime(kind, Final(kind, s', events), AllUses(kind, s', events, uses'), k);
      }
    }
  }
}
