/**
 Many processes that refresh the token at once, in every interleaving of their critical sections: who is
 between its call to the provider and the end of its lease.
 */
module LeaseTheorems {
  import opened Wrappers
  import opened Lease

  /** The lease row, the common clock, and until when each process that refreshes holds its lease. */
  datatype System = System(lease: Option<Held>, clock: int, refreshing: map<string, int>)

  /**
   Ask is the acquisition before a refresh and Pause the one after a failed one; both read the clock
   twice before the row is written. GiveBack ends every other refresh.
   */
  datatype Step =
    | Tick(to: int)
    | Ask(owner: string, readAt: int, now: int)
    | Pause(owner: string, readAt: int, now: int)
    | GiveBack(owner: string)
    | Import

  /** A process refreshes once at a time. */
  predicate Enabled(s: System, e: Step) {
    match e
    case Tick(to) => to >= s.clock
    case Ask(owner, readAt, now) => owner !in s.refreshing && readAt <= now <= s.clock
    case Pause(owner, readAt, now) => owner in s.refreshing && readAt <= now <= s.clock
    case GiveBack(owner) => owner in s.refreshing
    case Import => true
  }

  function Next(s: System, e: Step): System
    requires Enabled(s, e)
  {
    match e
    case Tick(to) => s.(clock := to)
    case Ask(owner, readAt, now) =>
      var until := readAt + REFRESH_LEASE;
      if Grants(s.lease, owner, now)
      then s.(lease := Acquired(s.lease, owner, until, now), refreshing := s.refreshing[owner := until])
      else s
    case Pause(owner, readAt, now) =>
      var until := readAt + FAILURE_BACKOFF;
      if Grants(s.lease, owner, now)
      then s.(lease := Acquired(s.lease, owner, until, now), refreshing := s.refreshing - {owner})
      else s
    case GiveBack(owner) => s.(lease := Released(s.lease, owner), refreshing := s.refreshing - {owner})
    case Import => s.(lease := None)
  }

  ghost predicate Legal(s: System, steps: seq<Step>)
    decreases |steps|
  {
    steps == [] || (Enabled(s, steps[0]) && Legal(Next(s, steps[0]), steps[1..]))
  }

  ghost function Final(s: System, steps: seq<Step>): System
    requires Legal(s, steps)
    decreases |steps|
  {
    if steps == [] then s else Final(Next(s, steps[0]), steps[1..])
  }

  /** The process refreshes and its lease is not over. */
  predicate Entitled(s: System, owner: string) {
    owner in s.refreshing && s.clock <= s.refreshing[owner]
  }

  /** At most one process is. */
  ghost predicate Exclusive(s: System) {
    forall a, b | Entitled(s, a) && Entitled(s, b) :: a == b
  }

  /** Whoever is entitled has the row. */
  ghost predicate Backed(s: System) {
    forall a | Entitled(s, a) :: s.lease == Some(Held(a, Micros(s.refreshing[a])))
  }

  lemma BackedStep(s: System, e: Step)
    requires Backed(s) && Enabled(s, e) && e != Import
    ensures Backed(Next(s, e))
  {
  }

  lemma BackedIsExclusive(s: System)
    requires Backed(s)
    ensures Exclusive(s)
  {
  }

  lemma {:induction false} BackedAlways(s: System, steps: seq<Step>)
    requires Backed(s) && Legal(s, steps) && Import !in steps
    ensures Backed(Final(s, steps))
    decreases |steps|
  {
    if steps != [] {
      BackedStep(s, steps[0]);
      BackedAlways(Next(s, steps[0]), steps[1..]);
    }
  }

  /**
   Over every interleaving from a state in which nobody refreshes, and whatever lease is stored there: no
   two processes are ever both between their call to the provider and the end of their lease.
   */
  lemma RefreshersExclude(s: System, steps: seq<Step>)
    requires s.refreshing == map[] && Legal(s, steps) && Import !in steps
    ensures Exclusive(Final(s, steps))
  {
    BackedAlways(s, steps);
    BackedIsExclusive(Final(s, steps));
  }

  ghost predicate StaysExclusive(s: System) {
    forall steps | Legal(s, steps) && Import !in steps :: Exclusive(Final(s, steps))
  }

  /** An import of changed credentials breaks this exactly when it comes while some process is entitled. */
  lemma ImportBreaksIff(start: System, steps: seq<Step>, other: string)
    requires start.refreshing == map[] && Legal(start, steps) && Import !in steps
    requires other !in Final(start, steps).refreshing
    ensures var s := Final(start, steps);
            StaysExclusive(Next(s, Import)) <==> forall a :: !Entitled(s, a)
  {
    BackedAlways(start, steps);
    var s := Final(start, steps);
    var s' := Next(s, Import);
    if a :| Entitled(s, a) {
      var ask := Ask(other, s.clock, s.clock);
      var end := Next(s', ask);
      assert [ask][1..] == [] && Legal(end, []);
      assert Legal(s', [ask]) && Final(s', [ask]) == end;
      assert Entitled(end, a) && Entitled(end, other);
      assert !Exclusive(Final(s', [ask]));
    } else {
      forall a ensures !Entitled(s', a) {
        assert !Entitled(s, a);
      }
      forall more | Legal(s', more) && Import !in more ensures Exclusive(Final(s', more)) {
        BackedAlways(s', more);
        BackedIsExclusive(Final(s', more));
      }
    }
  }

  // ----- The log of one process -----

  /** What one process did, and what all others did in between. */
  datatype Move = Own(note: Note) | Other(step: Step)

  predicate ActsFor(e: Step, owner: string) {
    (e.Ask? || e.Pause? || e.GiveBack?) && e.owner == owner
  }

  /** The step behind a note. */
  function OwnSteps(stage: Stage, note: Note): seq<Step> {
    match note
    case AskedLease(owner, until, now, _) =>
      if stage.Outside? then [Ask(owner, until - REFRESH_LEASE, now)] else [Pause(owner, until - FAILURE_BACKOFF, now)]
    case GaveBack(owner) => [GiveBack(owner)]
    case _ => []
  }

  /** The stage after a note, which stays if the process may not do that. */
  function StageAfter(owner: string, stage: Stage, note: Note): Stage {
    var next := Stepped(owner, stage, note);
    if next.Some? then next.value else stage
  }

  function Replay(owner: string, stage: Stage, moves: seq<Move>): seq<Step>
    decreases |moves|
  {
    if moves == [] then []
    else
      match moves[0]
      case Other(e) => [e] + Replay(owner, stage, moves[1..])
      case Own(note) => OwnSteps(stage, note) + Replay(owner, StageAfter(owner, stage, note), moves[1..])
  }

  /** The log of the process. */
  function Log(moves: seq<Move>): seq<Note>
    decreases |moves|
  {
    if moves == [] then []
    else if moves[0].Own? then [moves[0].note] + Log(moves[1..])
    else Log(moves[1..])
  }

  /** The row and the process after a note. */
  function Noted(s: System, owner: string, stage: Stage, note: Note): System {
    match note
    case AskedLease(_, until, now, granted) =>
      var row := Acquired(s.lease, owner, until, now);
      if !granted then s.(lease := row)
      else if stage.Outside? then s.(lease := row, refreshing := s.refreshing[owner := until])
      else s.(lease := row, refreshing := s.refreshing - {owner})
    case GaveBack(_) => s.(lease := Released(s.lease, owner), refreshing := s.refreshing - {owner})
    case _ => s
  }

  /** The answer in the log is the one the row gives at that moment, for a time already past. */
  predicate Tells(s: System, note: Note) {
    note.AskedLease? ==> note.now <= s.clock && note.granted == Grants(s.lease, note.owner, note.now)
  }

  /** The others do what they may, and the log tells the truth. */
  ghost predicate Observed(s: System, owner: string, stage: Stage, moves: seq<Move>)
    decreases |moves|
  {
    moves == [] ||
    match moves[0]
    case Other(e) => !ActsFor(e, owner) && Enabled(s, e) && Observed(Next(s, e), owner, stage, moves[1..])
    case Own(note) =>
      Tells(s, note) && Observed(Noted(s, owner, stage, note), owner, StageAfter(owner, stage, note), moves[1..])
  }

  lemma NoteIsStep(s: System, owner: string, stage: Stage, note: Note)
    requires (stage.Inside? <==> owner in s.refreshing) && Stepped(owner, stage, note).Some? && Tells(s, note)
    ensures var steps, s' := OwnSteps(stage, note), Noted(s, owner, stage, note);
            && Legal(s, steps) && Final(s, steps) == s' && Import !in steps
            && (Stepped(owner, stage, note).value.Inside? <==> owner in s'.refreshing)
  {
    var steps := OwnSteps(stage, note);
    if steps != [] {
      assert steps[1..] == [] && Legal(Next(s, steps[0]), []);
      assert Final(Next(s, steps[0]), []) == Next(s, steps[0]);
    }
  }

  lemma {:induction false} RunsCompose(s: System, first: seq<Step>, rest: seq<Step>)
    requires Legal(s, first) && Legal(Final(s, first), rest)
    ensures Legal(s, first + rest) && Final(s, first + rest) == Final(Final(s, first), rest)
    decreases |first|
  {
    if first == [] {
      assert first + rest == rest;
    } else {
      assert (first + rest)[0] == first[0] && (first + rest)[1..] == first[1..] + rest;
      RunsCompose(Next(s, first[0]), first[1..], rest);
    }
  }

  /** Whatever the others do in between, a log that follows the stages replays as a run of the system. */
  lemma {:induction false} LogIsRun(s: System, owner: string, stage: Stage, moves: seq<Move>)
    requires (stage.Inside? <==> owner in s.refreshing) && Observed(s, owner, stage, moves)
    requires Through(owner, stage, Log(moves)).Some?
    ensures var steps := Replay(owner, stage, moves);
            && Legal(s, steps)
            && (Through(owner, stage, Log(moves)).value.Inside? <==> owner in Final(s, steps).refreshing)
            && (Other(Import) !in moves ==> Import !in steps)
    decreases |moves|
  {
    if moves != [] {
      assert forall m | m in moves[1..] :: m in moves;
      hide Stepped, Tells, OwnSteps, Noted;
      match moves[0]
      case Other(e) =>
        LogIsRun(Next(s, e), owner, stage, moves[1..]);
        assert ([e] + Replay(owner, stage, moves[1..]))[1..] == Replay(owner, stage, moves[1..]);
      case Own(note) =>
        assert ([note] + Log(moves[1..]))[1..] == Log(moves[1..]);
        var next := StageAfter(owner, stage, note);
        NoteIsStep(s, owner, stage, note);
        LogIsRun(Noted(s, owner, stage, note), owner, next, moves[1..]);
        RunsCompose(s, OwnSteps(stage, note), Replay(owner, next, moves[1..]));
    }
  }

  function Joined(logs: seq<seq<Note>>): seq<Note> {
    if logs == [] then [] else Joined(logs[..|logs| - 1]) + logs[|logs| - 1]
  }

  lemma {:induction false} CallsFollow(owner: string, logs: seq<seq<Note>>)
    requires forall i | 0 <= i < |logs| :: Through(owner, Outside, logs[i]) == Some(Outside)
    ensures Through(owner, Outside, Joined(logs)) == Some(Outside)
  {
    if logs != [] {
      var before, last := logs[..|logs| - 1], logs[|logs| - 1];
      CallsFollow(owner, before);
      ThroughAppend(owner, Outside, Joined(before), last);
    }
  }

  /**
   However many calls a process makes, each with such a log as EnsureFresh leaves, and whatever others do in
   between: from a state in which nobody refreshes the whole is a run of the system. Without an import no
   two processes then refresh within their leases, and the process does not refresh when its calls are over.
   */
  lemma CallsAreRuns(s: System, owner: string, logs: seq<seq<Note>>, moves: seq<Move>)
    requires s.refreshing == map[] && Observed(s, owner, Outside, moves) && Log(moves) == Joined(logs)
    requires forall i | 0 <= i < |logs| :: Through(owner, Outside, logs[i]) == Some(Outside)
    ensures var steps := Replay(owner, Outside, moves);
            && Legal(s, steps) && owner !in Final(s, steps).refreshing
            && (Other(Import) !in moves ==> Exclusive(Final(s, steps)))
  {
    CallsFollow(owner, logs);
    LogIsRun(s, owner, Outside, moves);
    if Other(Import) !in moves {
      RefreshersExclude(s, Replay(owner, Outside, moves));
    }
  }
}
