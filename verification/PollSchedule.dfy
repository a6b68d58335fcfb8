/**
 How often an offline task is polled (internal/ingest/service.go, adaptivePollInterval).
 Durations are nanoseconds.
 */
module PollSchedule {
  const SECOND := 1_000_000_000
  const DIVISOR := 5
  const DEFAULT_MIN := 2 * SECOND
  const DEFAULT_MAX := 300 * SECOND

  /** The configured bounds; a value that is not positive stands for the default. */
  datatype Bounds = Bounds(configuredMin: int, configuredMax: int) {
    function Min(): (m: int)
      ensures m > 0
    {
      if configuredMin <= 0 then DEFAULT_MIN else configuredMin
    }

    function Max(): (m: int)
      ensures m > 0
    {
      if configuredMax <= 0 then DEFAULT_MAX else configuredMax
    }
  }

  /** Go's integer division, which truncates toward zero. */
  function Quotient(a: int, b: int): int
    requires b > 0
  {
    if a >= 0 then a / b else -(-a / b)
  }

  function Interval(b: Bounds, elapsed: int): int {
    var interval := Quotient(elapsed, DIVISOR);
    if interval < b.Min() then b.Min()
    else if interval > b.Max() then b.Max()
    else interval
  }

  /** The interval is always within the effective bounds exactly when they are ordered. */
  lemma IntervalWithinBounds(b: Bounds)
    ensures (forall e :: b.Min() <= Interval(b, e) <= b.Max()) <==> b.Min() <= b.Max()
  {
    if b.Min() > b.Max() {
      assert Interval(b, 0) == b.Min();
    }
  }

  /** It grows with the elapsed time exactly when they are ordered. */
  lemma IntervalMonotone(b: Bounds)
    ensures (forall e, e' | e <= e' :: Interval(b, e) <= Interval(b, e')) <==> b.Min() <= b.Max()
  {
    if b.Min() > b.Max() {
      assert Interval(b, 0) == b.Min() && Interval(b, 5 * b.Min()) == b.Max();
    }
  }

  /** Times of polls since the epoch began: each one waits for the interval set by the one before. */
  predicate Spaced(b: Bounds, polls: seq<int>) {
    forall i | 0 < i < |polls| :: polls[i] >= polls[i - 1] + Interval(b, polls[i - 1])
  }

  /** The first poll of the epoch also waited. */
  predicate Patient(b: Bounds, polls: seq<int>) {
    polls != [] ==> polls[0] >= Interval(b, 0)
  }

  lemma {:induction false} PollsAtLeastMinApart(b: Bounds, polls: seq<int>, i: nat, j: nat)
    requires b.Min() <= b.Max() && Spaced(b, polls) && i <= j < |polls|
    ensures polls[j] >= polls[i] + (j - i) * b.Min() && polls[j] >= polls[i]
    decreases j
  {
    if i < j {
      PollsAtLeastMinApart(b, polls, i, j - 1);
      IntervalWithinBounds(b);
      assert (j - i) * b.Min() == (j - 1 - i) * b.Min() + b.Min();
      assert polls[j] >= polls[j - 1] + Interval(b, polls[j - 1]);
    }
  }

  /** At most four polls fall before five times the minimum. */
  lemma FewEarlyPolls(b: Bounds, polls: seq<int>, i: nat)
    requires b.Min() <= b.Max() && Spaced(b, polls) && Patient(b, polls)
    requires i < |polls| && polls[i] < 5 * b.Min()
    ensures i < 4
  {
    IntervalWithinBounds(b);
    if i >= 4 {
      PollsAtLeastMinApart(b, polls, 0, 4);
      PollsAtLeastMinApart(b, polls, 4, i);
      assert false;
    }
  }

  function Power(base: nat, n: nat): nat {
    if n == 0 then 1 else base * Power(base, n - 1)
  }

  lemma {:induction false} PowerPositive(base: nat, n: nat)
    requires base > 0
    ensures Power(base, n) > 0
  {
    if n > 0 {
      PowerPositive(base, n - 1);
    }
  }

  lemma MiddleStep(b: Bounds, e: int, e': int)
    requires 5 * b.Min() <= e <= 5 * b.Max() && e' >= e + Interval(b, e)
    ensures 6 * (e - 4) <= 5 * (e' - 4)
  {
    assert b.Min() <= e / 5 <= b.Max();
  }

  /** Between the two clamps every poll comes a fifth later, up to the integer floor. */
  lemma {:induction false} MiddlePollsGrow(b: Bounds, polls: seq<int>, i: nat, j: nat)
    requires b.Min() <= b.Max() && Spaced(b, polls) && i <= j < |polls|
    requires 5 * b.Min() <= polls[i] && polls[j] <= 5 * b.Max()
    ensures Power(6, j - i) * (polls[i] - 4) <= Power(5, j - i) * (polls[j] - 4)
    decreases j
  {
    hide Interval;
    if i < j {
      PollsAtLeastMinApart(b, polls, i, j - 1);
      PollsAtLeastMinApart(b, polls, j - 1, j);
      MiddleStep(b, polls[j - 1], polls[j]);
      MiddlePollsGrow(b, polls, i, j - 1);
      PowerPositive(5, j - 1 - i);
      GrowthStep(Power(6, j - 1 - i), Power(5, j - 1 - i), polls[i] - 4, polls[j - 1] - 4, polls[j] - 4);
    }
  }

  lemma GrowthStep(p6: int, p5: int, first: int, last: int, next: int)
    requires p6 * first <= p5 * last && p5 >= 0 && 6 * last <= 5 * next
    ensures (6 * p6) * first <= (5 * p5) * next
  {
    assert (6 * p6) * first == 6 * (p6 * first);
    assert (5 * p5) * next == p5 * (5 * next);
    assert p5 * (6 * last) <= p5 * (5 * next);
    assert p5 * (6 * last) == 6 * (p5 * last);
  }

  /** So polls between the clamps are few: their number is bounded by a logarithm to base 6/5. */
  lemma FewMiddlePolls(b: Bounds, polls: seq<int>, i: nat, j: nat)
    requires b.Min() <= b.Max() && Spaced(b, polls) && i <= j < |polls|
    requires 5 * b.Min() <= polls[i] && polls[j] <= 5 * b.Max()
    ensures Power(6, j - i) * (5 * b.Min() - 4) <= Power(5, j - i) * (5 * b.Max() - 4)
  {
    hide Interval, Power;
    MiddlePollsGrow(b, polls, i, j);
    PowerPositive(6, j - i);
    PowerPositive(5, j - i);
    Widen(Power(6, j - i), Power(5, j - i), 5 * b.Min() - 4, polls[i] - 4, polls[j] - 4, 5 * b.Max() - 4);
  }

  lemma Widen(p6: int, p5: int, low: int, first: int, last: int, high: int)
    requires p6 > 0 && p5 > 0 && low <= first && last <= high && p6 * first <= p5 * last
    ensures p6 * low <= p5 * high
  {
    assert p6 * low <= p6 * first;
    assert p5 * last <= p5 * high;
  }

  /** Past five times the maximum there is at most one poll per maximum. */
  lemma {:induction false} LatePollsMaxApart(b: Bounds, polls: seq<int>, i: nat, j: nat)
    requires b.Min() <= b.Max() && Spaced(b, polls) && i <= j < |polls|
    requires polls[i] >= 5 * b.Max()
    ensures polls[j] >= polls[i] + (j - i) * b.Max()
    decreases j
  {
    if i < j {
      LatePollsMaxApart(b, polls, i, j - 1);
      assert (j - i) * b.Max() == (j - 1 - i) * b.Max() + b.Max();
      assert (j - 1 - i) * b.Max() >= 0;
      assert polls[j] >= polls[j - 1] + Interval(b, polls[j - 1]);
    }
  }
}
