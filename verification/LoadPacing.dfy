/** Pacing of action starts: bursts separated by delays, and starts spread over a time limit. */
module LoadPacing {
  import opened Common

  /** Starts never go back in time, and after every full burst at least the delay passes. */
  ghost predicate IsSteppedRun(starts: seq<int>, burst: int, delay: int)
    requires burst > 0
  {
    && (forall i, j :: 0 <= i <= j < |starts| ==> starts[i] <= starts[j])
    && (forall i :: 0 <= i < |starts| - 1 && (i + 1) % burst == 0 ==> starts[i] + delay <= starts[i + 1])
  }

  /** The pause before action i > 0: none inside a burst; a delay that is not positive is no pause. */
  function Pause(i: nat, burst: int, delay: int, oversleep: nat -> nat): nat
    requires i > 0 && burst > 0
  {
    if i % burst != 0 then 0 else (if delay > 0 then delay else 0) + oversleep(i - 1)
  }

  /** The exact start times: each after the previous one, the pause if there is one, and the loop's overhead. */
  ghost predicate Paced(starts: seq<int>, burst: int, delay: int, begin: int, overhead: nat -> nat,
                        oversleep: nat -> nat)
    requires burst > 0
  {
    && (|starts| > 0 ==> starts[0] == begin + overhead(0))
    && forall i :: 1 <= i < |starts| ==> starts[i] == starts[i - 1] + overhead(i) + Pause(i, burst, delay, oversleep)
  }

  /** On an idle machine the actions of a burst start together, and the next burst exactly one delay later. */
  lemma IdleMachine(starts: seq<int>, burst: int, delay: int, begin: int, overhead: nat -> nat, oversleep: nat -> nat,
                    i: nat)
    requires burst > 0 && delay >= 0 && Paced(starts, burst, delay, begin, overhead, oversleep)
    requires i + 1 < |starts| && forall k :: overhead(k) == 0 && oversleep(k) == 0
    ensures starts[0] == begin
    ensures starts[i + 1] - starts[i] == if (i + 1) % burst == 0 then delay else 0
  {
    assert overhead(i + 1) == 0 && oversleep(i) == 0 && overhead(0) == 0;
  }

  lemma {:induction false} PacedRises(starts: seq<int>, burst: int, delay: int, begin: int, overhead: nat -> nat,
                                      oversleep: nat -> nat, i: nat, j: nat)
    requires burst > 0 && Paced(starts, burst, delay, begin, overhead, oversleep) && i <= j < |starts|
    ensures starts[i] <= starts[j]
  {
    if i < j { PacedRises(starts, burst, delay, begin, overhead, oversleep, i, j - 1); }
  }

  lemma PacedIsStepped(starts: seq<int>, burst: int, delay: int, begin: int, overhead: nat -> nat,
                       oversleep: nat -> nat)
    requires burst > 0 && Paced(starts, burst, delay, begin, overhead, oversleep)
    ensures IsSteppedRun(starts, burst, delay)
  {
    forall i, j | 0 <= i <= j < |starts| ensures starts[i] <= starts[j] {
      PacedRises(starts, burst, delay, begin, overhead, oversleep, i, j);
    }
    forall i | 0 <= i < |starts| - 1 && (i + 1) % burst == 0 ensures starts[i] + delay <= starts[i + 1] {
      assert starts[i + 1] == starts[i] + overhead(i + 1) + Pause(i + 1, burst, delay, oversleep);
    }
  }

  /**
   * `overhead` is the time the loop itself takes before each start and `oversleep` how much
   * longer than asked a sleep lasts; both are arbitrary.  `order` is the sequence of started actions.
   */
  method ExecuteStepped(n: nat, burst: int, delay: int, begin: int, overhead: nat -> nat, oversleep: nat -> nat)
    returns (starts: seq<int>, order: seq<nat>)
    requires burst > 0
    ensures |starts| == n && order == seq(n, i => i)
    ensures Paced(starts, burst, delay, begin, overhead, oversleep)
    ensures IsSteppedRun(starts, burst, delay)
  {
    var now := begin;
    starts, order := [], [];
    for i := 0 to n
      invariant |starts| == i && order == seq(i, k => k)
      invariant Paced(starts, burst, delay, begin, overhead, oversleep)
      invariant now == if i == 0 then begin else starts[i - 1] + Pause(i, burst, delay, oversleep)
    {
      now := now + overhead(i);
      starts := starts + [now];
      order := order + [i];
      if (i + 1) % burst == 0 {
        now := now + (if delay > 0 then delay else 0) + oversleep(i);
      }
    }
    PacedIsStepped(starts, burst, delay, begin, overhead, oversleep);
  }

  /** Position of the end of the burst that i belongs to. */
  function BurstEnd(i: nat, burst: int): int
    requires burst > 0
  {
    i + (burst - 1 - i % burst)
  }

  lemma BurstEndIsBoundary(i: nat, burst: int)
    requires burst > 0
    ensures i <= BurstEnd(i, burst) < i + burst
    ensures (BurstEnd(i, burst) + 1) % burst == 0
  {
    assert BurstEnd(i, burst) + 1 == (i / burst + 1) * burst;
    MultipleModulo(i / burst + 1, burst);
  }

  lemma MultipleModulo(k: nat, m: int)
    requires m > 0
    ensures (k * m) % m == 0
  {
    var d, z := (k * m) / m, (k * m) % m;
    assert (k - d) * m == z;
    assert k - d >= 1 ==> (k - d) * m >= m;
    assert k - d <= -1 ==> (k - d) * m <= -m;
  }

  lemma OneBurst(starts: seq<int>, burst: int, delay: int, j: nat)
    requires burst > 0 && IsSteppedRun(starts, burst, delay) && j + burst < |starts|
    ensures starts[j] + delay <= starts[j + burst]
  {
    var k := BurstEnd(j, burst);
    BurstEndIsBoundary(j, burst);
    assert starts[j] <= starts[k] && starts[k] + delay <= starts[k + 1] && starts[k + 1] <= starts[j + burst];
  }

  /** m bursts apart means m delays apart. */
  lemma {:induction false} BurstsSpread(starts: seq<int>, burst: int, delay: int, i: nat, m: nat)
    requires burst > 0 && IsSteppedRun(starts, burst, delay)
    requires i + m * burst < |starts|
    ensures starts[i] + m * delay <= starts[i + m * burst]
  {
    if m > 0 {
      assert m * burst == (m - 1) * burst + burst && m * delay == (m - 1) * delay + delay;
      BurstsSpread(starts, burst, delay, i, m - 1);
      OneBurst(starts, burst, delay, i + (m - 1) * burst);
    }
  }

  /** First start at or after x. */
  ghost function FirstFrom(starts: seq<int>, x: int, i: nat): (r: nat)
    requires i <= |starts|
    ensures i <= r <= |starts|
    ensures forall k :: i <= k < r ==> starts[k] < x
    ensures r < |starts| ==> starts[r] >= x
    decreases |starts| - i
  {
    if i == |starts| || starts[i] >= x then i else FirstFrom(starts, x, i + 1)
  }

  ghost function Range(lo: int, n: nat): (r: set<int>)
    ensures |r| == n && forall i :: i in r <==> lo <= i < lo + n
  {
    if n == 0 then {} else Range(lo, n - 1) + {lo + n - 1}
  }

  ghost function StartsWithin(starts: seq<int>, x: int, length: int): set<int> {
    set i | 0 <= i < |starts| && x <= starts[i] < x + length
  }

  /** Any half-open window of m delays sees at most m bursts. */
  lemma WindowHoldsAtMostMBursts(starts: seq<int>, burst: int, delay: int, x: int, m: nat)
    requires burst > 0 && IsSteppedRun(starts, burst, delay)
    ensures m * burst >= 0 && |StartsWithin(starts, x, m * delay)| <= m * burst
  {
    var lo := FirstFrom(starts, x, 0);
    forall i | i in StartsWithin(starts, x, m * delay) ensures i in Range(lo, m * burst) {
      if lo + m * burst <= i { LateStart(starts, burst, delay, lo, i, m); }
    }
    SubsetSize(StartsWithin(starts, x, m * delay), Range(lo, m * burst));
  }

  lemma LateStart(starts: seq<int>, burst: int, delay: int, lo: nat, i: nat, m: nat)
    requires burst > 0 && IsSteppedRun(starts, burst, delay)
    requires lo + m * burst <= i < |starts|
    ensures starts[lo] + m * delay <= starts[i]
  {
    BurstsSpread(starts, burst, delay, lo, m);
    var j := lo + m * burst;
    assert starts[j] <= starts[i];
  }

  // ------------------------------------------------------- time limited

  /** Go's integer division truncates toward zero. */
  function Quotient(a: int, n: nat): (r: int)
    requires n > 0
    ensures a >= 0 ==> r * n <= a < r * n + n
    ensures a <= 0 ==> r * n - n < a <= r * n
  {
    if a >= 0 then a / n else -((-a) / n)
  }

  /** The requested sleeps fill the limit up to less than one nanosecond per action. */
  method ExecuteTimeLimited(n: nat, timeLimit: int) returns (order: seq<nat>, requested: int)
    ensures order == seq(n, i => i)
    ensures n == 0 ==> requested == 0
    ensures n > 0 && timeLimit >= 0 ==> timeLimit - n < requested <= timeLimit
    ensures n > 0 && timeLimit <= 0 ==> timeLimit <= requested < timeLimit + n
  {
    order, requested := [], 0;
    if n == 0 { return; }
    var sleep := Quotient(timeLimit, n);
    for i := 0 to n
      invariant order == seq(i, k => k)
      invariant requested == i * sleep
    {
      order := order + [i];
      requested := requested + sleep;
      assert (i + 1) * sleep == i * sleep + sleep;
    }
  }
}
