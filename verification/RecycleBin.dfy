/**
 The worker that empties the recycle bin: requests that arrive while a call is in flight share the
 next one (internal/materialize/service.go).
 */
module RecycleBin {
  datatype Flags = Flags(running: bool, pending: bool)

  function Requested(f: Flags): Flags {
    Flags(true, true)
  }

  function RoundBegun(f: Flags): Flags {
    f.(pending := false)
  }

  function RoundEnded(f: Flags): Flags {
    if f.pending then f else f.(running := false)
  }

  class RecycleBinWorker {
    var running: bool
    var pending: bool

    ghost function View(): Flags
      reads this
    {
      Flags(running, pending)
    }

    constructor ()
      ensures View() == Flags(false, false)
    {
      running, pending := false, false;
    }

    /** The caller starts a worker if spawn is true. */
    method Request() returns (spawn: bool)
      modifies this
      ensures View() == Requested(old(View())) && spawn == !old(running)
    {
      pending := true;
      if running {
        return false;
      }
      running := true;
      spawn := true;
    }

    method BeginRound()
      modifies this
      ensures View() == RoundBegun(old(View()))
    {
      pending := false;
    }

    /** The worker goes round again if again is true and ends otherwise. */
    method EndRound() returns (again: bool)
      modifies this
      ensures View() == RoundEnded(old(View())) && again == old(pending)
    {
      if !pending {
        running := false;
        return false;
      }
      again := true;
    }
  }

  // ----- Interleavings -----

  /** Where a worker is: before it clears pending, before its call starts, or in the call. */
  datatype Place = AtTop | Cleared | Calling

  datatype Note = Asked | Called

  /** Workers keep their number for ever; those that have ended are no longer in the map. */
  datatype System = System(flags: Flags, workers: map<nat, Place>, started: nat, log: seq<Note>)

  const START := System(Flags(false, false), map[], 0, [])

  datatype Event = Ask | Clear(w: nat) | Call(w: nat) | Return(w: nat)

  predicate Enabled(s: System, e: Event) {
    match e
    case Ask => true
    case Clear(w) => w in s.workers && s.workers[w] == AtTop
    case Call(w) => w in s.workers && s.workers[w] == Cleared
    case Return(w) => w in s.workers && s.workers[w] == Calling
  }

  function After(s: System, e: Event): System
    requires Enabled(s, e)
  {
    match e
    case Ask =>
      var s' := s.(flags := Requested(s.flags), log := s.log + [Asked]);
      if s.flags.running then s' else s'.(workers := s.workers[s.started := AtTop], started := s.started + 1)
    case Clear(w) => s.(flags := RoundBegun(s.flags), workers := s.workers[w := Cleared])
    case Call(w) => s.(workers := s.workers[w := Calling], log := s.log + [Called])
    case Return(w) =>
      s.(flags := RoundEnded(s.flags),
         workers := if s.flags.pending then s.workers[w := AtTop] else s.workers - {w})
  }

  ghost predicate Legal(s: System, events: seq<Event>)
    decreases |events|
  {
    events == [] || (Enabled(s, events[0]) && Legal(After(s, events[0]), events[1..]))
  }

  ghost function Final(s: System, events: seq<Event>): System
    requires Legal(s, events)
    decreases |events|
  {
    if events == [] then s else Final(After(s, events[0]), events[1..])
  }

  /** Some request has not been followed by the start of a call. */
  predicate Owed(log: seq<Note>) {
    log != [] && (log[|log| - 1] == Asked || (log[|log| - 1] != Called && Owed(log[..|log| - 1])))
  }

  function Count(log: seq<Note>, n: Note): nat {
    if log == [] then 0 else Count(log[..|log| - 1], n) + if log[|log| - 1] == n then 1 else 0
  }

  /** Calls started since the last request. */
  function CallsSince(log: seq<Note>): nat {
    if log == [] || log[|log| - 1] == Asked then 0 else CallsSince(log[..|log| - 1]) + 1
  }

  /** Calls a worker will still start if nobody asks again. */
  function CallsLeft(s: System, w: nat): nat
    requires w in s.workers
  {
    match s.workers[w]
    case AtTop => 1
    case Cleared => if s.flags.pending then 2 else 1
    case Calling => if s.flags.pending then 1 else 0
  }

  ghost predicate Inv(s: System) {
    && (forall w | w in s.workers :: w < s.started)
    && (!s.flags.running ==> s.workers == map[] && !s.flags.pending && !Owed(s.log) && CallsSince(s.log) <= 2
                             && Count(s.log, Called) <= Count(s.log, Asked))
    && (s.flags.running ==> exists w ::
          && s.workers.Keys == {w}
          && (s.workers[w] == AtTop ==> s.flags.pending)
          && (Owed(s.log) ==> s.flags.pending || s.workers[w] == Cleared)
          && CallsSince(s.log) + CallsLeft(s, w) <= 2
          && Count(s.log, Called) + CallsLeft(s, w) <= Count(s.log, Asked))
  }

  lemma Step(s: System, e: Event)
    requires Inv(s) && Enabled(s, e)
    ensures Inv(After(s, e))
  {
    var s' := After(s, e);
    assert e == Ask || e.Call? ==> s'.log[..|s'.log| - 1] == s.log;
    var w := if s.flags.running then var w :| s.workers.Keys == {w}; w else s.started;
    if s'.flags.running {
      assert s'.workers.Keys == {w};
    } else {
      assert s'.workers == map[];
    }
  }

  lemma {:induction false} AlwaysInv(s: System, events: seq<Event>)
    requires Inv(s) && Legal(s, events)
    ensures Inv(Final(s, events))
    decreases |events|
  {
    if events != [] {
      Step(s, events[0]);
      AlwaysInv(After(s, events[0]), events[1..]);
    }
  }

  lemma {:induction false} OwedMeansUnanswered(log: seq<Note>)
    ensures Owed(log) <==> exists i :: 0 <= i < |log| && log[i] == Asked && Called !in log[i..]
  {
    if log != [] {
      var before, last := log[..|log| - 1], |log| - 1;
      OwedMeansUnanswered(before);
      if log[last] == Asked {
        assert log[last] == Asked && Called !in log[last..];
      } else {
        assert Called in log[last..];
      }
    }
  }

  /**
   In every interleaving: there is one worker while running is set and none otherwise, pending
   implies running, and once no worker is left every request has been followed by a call that
   started after it.
   */
  lemma NoRequestLost(events: seq<Event>, i: nat)
    requires Legal(START, events)
    ensures var s := Final(START, events);
            && |s.workers| == (if s.flags.running then 1 else 0)
            && (s.flags.pending ==> s.flags.running)
            && (s.workers == map[] && i < |s.log| && s.log[i] == Asked ==> Called in s.log[i..])
  {
    AlwaysInv(START, events);
    var s := Final(START, events);
    OwedMeansUnanswered(s.log);
    if s.flags.running {
      var w :| s.workers.Keys == {w};
      assert |s.workers| == |s.workers.Keys|;
    }
  }

  /**
   Coalescing: never more calls than requests, and however many requests arrive at most two calls
   start after the last of them.
   */
  lemma CallsAreCoalesced(events: seq<Event>)
    requires Legal(START, events)
    ensures var s := Final(START, events);
            Count(s.log, Called) <= Count(s.log, Asked) && CallsSince(s.log) <= 2
  {
    AlwaysInv(START, events);
  }
}
