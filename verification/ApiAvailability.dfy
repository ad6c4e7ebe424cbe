/** API availability: the failure counters, and the pausable poll loop with its control actions. */
module ApiAvailability {

  // ------------------------------------------------------- counters

  /** All probes in [i, j) failed. */
  ghost predicate FailedRun(history: seq<bool>, i: int, j: int) {
    0 <= i <= j <= |history| && forall k :: i <= k < j ==> !history[k]
  }

  /** n is the length of the longest contiguous failing run. */
  ghost predicate IsLongestRun(history: seq<bool>, n: int) {
    && (exists i, j :: FailedRun(history, i, j) && j - i == n)
    && (forall i, j :: FailedRun(history, i, j) ==> j - i <= n)
  }

  ghost predicate IsTrailingRun(history: seq<bool>, n: int) {
    && FailedRun(history, |history| - n, |history|)
    && (n < |history| ==> history[|history| - n - 1])
  }

  ghost function Successes(history: seq<bool>): nat {
    if history == [] then 0
    else Successes(history[..|history| - 1]) + (if history[|history| - 1] then 1 else 0)
  }

  class Metrics {
    var numSuccesses: int
    var numFailures: int
    var maxConsecutiveFailedProbes: int
    var consecutiveFailedProbes: int

    ghost predicate Summarises(history: seq<bool>) reads this {
      && numSuccesses == Successes(history)
      && numSuccesses + numFailures == |history| && numFailures >= 0
      && IsTrailingRun(history, consecutiveFailedProbes)
      && IsLongestRun(history, maxConsecutiveFailedProbes)
    }

    constructor ()
      ensures Summarises([])
    {
      numSuccesses, numFailures, maxConsecutiveFailedProbes, consecutiveFailedProbes := 0, 0, 0, 0;
      new;
      assert FailedRun([], 0, 0);
    }

    method Update(availability: bool, ghost history: seq<bool>)
      requires Summarises(history)
      modifies this
      ensures Summarises(history + [availability])
    {
      ghost var all := history + [availability];
      assert all[..|history|] == history;
      ExtendRuns(history, availability, consecutiveFailedProbes, maxConsecutiveFailedProbes);
      if availability {
        numSuccesses := numSuccesses + 1;
        consecutiveFailedProbes := 0;
        return;
      }
      numFailures := numFailures + 1;
      consecutiveFailedProbes := consecutiveFailedProbes + 1;
      if consecutiveFailedProbes > maxConsecutiveFailedProbes {
        maxConsecutiveFailedProbes := consecutiveFailedProbes;
      }
    }

    /** Percentage and longest outage (in nanoseconds) of the summary. */
    method BuildSummary(pollFrequency: int, ghost history: seq<bool>) returns (percentage: real, longestOutage: int)
      requires Summarises(history)
      ensures 0.0 <= percentage <= 100.0
      ensures history == [] ==> percentage == 100.0
      ensures history != [] ==> percentage * |history| as real == 100.0 * Successes(history) as real
      ensures exists n :: IsLongestRun(history, n) && longestOutage == n * pollFrequency
    {
      percentage := 100.0;
      if numSuccesses > 0 || numFailures > 0 {
        var s, n := numSuccesses as real, (numSuccesses + numFailures) as real;
        percentage := s / n * 100.0;
        ShareIsPercentage(s, n);
      }
      longestOutage := maxConsecutiveFailedProbes * pollFrequency;
    }
  }

  lemma ShareIsPercentage(s: real, n: real)
    requires 0.0 <= s <= n && n > 0.0
    ensures 0.0 <= s / n * 100.0 <= 100.0
    ensures s / n * 100.0 * n == 100.0 * s
  {
    var q := s / n;
    assert q * n == s;
    assert 0.0 <= q <= 1.0;
  }

  lemma ExtendRuns(history: seq<bool>, b: bool, trailing: int, longest: int)
    requires IsTrailingRun(history, trailing) && IsLongestRun(history, longest)
    ensures IsTrailingRun(history + [b], if b then 0 else trailing + 1)
    ensures IsLongestRun(history + [b], if !b && trailing + 1 > longest then trailing + 1 else longest)
  {
    var all := history + [b];
    var n := if !b && trailing + 1 > longest then trailing + 1 else longest;
    var i, j :| FailedRun(history, i, j) && j - i == longest;
    assert FailedRun(all, i, j);
    assert !b ==> FailedRun(all, |history| - trailing, |all|);
    forall i, j | FailedRun(all, i, j) ensures j - i <= n {
      if j <= |history| {
        assert FailedRun(history, i, j) by { assert forall k :: i <= k < j ==> all[k] == history[k]; }
      } else if i < j {
        assert !all[|history|];
        assert trailing < |history| ==> all[|history| - trailing - 1];
      }
    }
  }

  // ------------------------------------------------------- the poll loop

  /**
   * Where the poll goroutine is; NoLoop when there is none.  A taken channel message and the flag
   * it sets are separate steps.
   */
  datatype Loop = NoLoop | Top | AwaitUnpause | GotUnpause | Select | GotPause

  /**
   * The action executed under the measurement's lock.  A send blocks until the loop takes it;
   * gathering has closed the stop channel and waits for the loop to end.
   */
  datatype Control = Idle | SendingPause | SendingUnpause | Gathering

  datatype Entry = Probed | PauseTaken | UnpauseTaken

  datatype World = World(loop: Loop, control: Control, isRunning: bool, isPaused: bool, log: seq<Entry>)

  datatype Step =
    | CheckPaused | TakeUnpause | ClearFlag | TakePause | SetFlag | Probe | SeeStop | FinishGather
    | Start(initialised: bool) | RequestPause | RequestUnpause | RequestGather

  const CREATED := World(NoLoop, Idle, false, false, [])

  predicate IsAction(s: Step) {
    s.Start? || s.RequestPause? || s.RequestUnpause? || s.RequestGather?
  }

  predicate Enabled(w: World, s: Step) {
    match s
    case CheckPaused => w.loop.Top?
    case TakeUnpause => w.loop.AwaitUnpause? && w.control.SendingUnpause?
    case ClearFlag => w.loop.GotUnpause?
    case TakePause => w.loop.Select? && w.control.SendingPause?
    case SetFlag => w.loop.GotPause?
    case Probe => w.loop.Select?
    case SeeStop => (w.loop.AwaitUnpause? || w.loop.Select?) && w.control.Gathering?
    case FinishGather => w.control.Gathering? && w.loop.NoLoop?
    case _ => w.control.Idle?
  }

  /** Starting marks the measurement running before its parameters are read; if that fails no loop is launched. */
  function Apply(w: World, s: Step): World
    requires Enabled(w, s)
  {
    match s
    case CheckPaused => w.(loop := if w.isPaused then AwaitUnpause else Select)
    case TakeUnpause => w.(loop := GotUnpause, control := Idle, log := w.log + [UnpauseTaken])
    case ClearFlag => w.(isPaused := false, loop := Select)
    case TakePause => w.(loop := GotPause, control := Idle, log := w.log + [PauseTaken])
    case SetFlag => w.(isPaused := true, loop := Top)
    case Probe => w.(loop := Top, log := w.log + [Probed])
    case SeeStop => w.(loop := NoLoop)
    case FinishGather => w.(control := Idle, isRunning := false)
    case Start(initialised) =>
      if w.isRunning then w else w.(isRunning := true, loop := if initialised then Top else w.loop)
    case RequestPause => if !w.isRunning || w.isPaused then w else w.(control := SendingPause)
    case RequestUnpause => if !w.isRunning || !w.isPaused then w else w.(control := SendingUnpause)
    case RequestGather => if !w.isRunning then w else w.(control := Gathering)
  }

  ghost predicate IsRun(w: World, steps: seq<Step>)
    decreases |steps|
  {
    steps == [] || (Enabled(w, steps[0]) && IsRun(Apply(w, steps[0]), steps[1..]))
  }

  ghost function After(w: World, steps: seq<Step>): World
    requires IsRun(w, steps)
    decreases |steps|
  {
    if steps == [] then w else After(Apply(w, steps[0]), steps[1..])
  }

  /** Whether the last pause or unpause taken was a pause. */
  ghost predicate PausedAfter(log: seq<Entry>) {
    && log != []
    && match log[|log| - 1]
       case PauseTaken => true
       case UnpauseTaken => false
       case Probed => PausedAfter(log[..|log| - 1])
  }

  /** Probes happen only outside pauses; pauses and unpauses alternate. */
  ghost predicate Disciplined(log: seq<Entry>) {
    forall i :: 0 <= i < |log| ==> PausedAfter(log[..i]) == log[i].UnpauseTaken?
  }

  ghost predicate Inv(w: World) {
    && Disciplined(w.log)
    && (!w.isRunning ==> w.loop.NoLoop? && w.control.Idle?)
    && match w.loop
       case NoLoop => PausedAfter(w.log) == w.isPaused
       case Top => PausedAfter(w.log) == w.isPaused
       case AwaitUnpause => PausedAfter(w.log) && w.isPaused
       case GotUnpause => !PausedAfter(w.log) && w.isPaused
       case Select => !PausedAfter(w.log) && !w.isPaused
       case GotPause => PausedAfter(w.log) && !w.isPaused
  }

  lemma LogExtends(log: seq<Entry>, e: Entry)
    requires Disciplined(log) && PausedAfter(log) == e.UnpauseTaken?
    ensures Disciplined(log + [e])
    ensures PausedAfter(log + [e]) == (if e.Probed? then PausedAfter(log) else e.PauseTaken?)
  {
    var all := log + [e];
    assert all[..|log|] == log;
    forall i | 0 <= i < |all| ensures PausedAfter(all[..i]) == all[i].UnpauseTaken? {
      if i < |log| { assert all[..i] == log[..i]; }
    }
  }

  lemma StepKeepsInv(w: World, s: Step)
    requires Inv(w) && Enabled(w, s)
    ensures Inv(Apply(w, s))
  {
    match s
    case TakeUnpause => LogExtends(w.log, UnpauseTaken);
    case TakePause => LogExtends(w.log, PauseTaken);
    case Probe => LogExtends(w.log, Probed);
    case _ =>
  }

  lemma {:induction false} RunKeepsInv(w: World, steps: seq<Step>)
    requires Inv(w) && IsRun(w, steps)
    ensures Inv(After(w, steps))
    decreases |steps|
  {
    if steps != [] {
      StepKeepsInv(w, steps[0]);
      RunKeepsInv(Apply(w, steps[0]), steps[1..]);
    }
  }

  /**
   * In every run, across gathers and restarts: between taking a pause and taking the next unpause
   * no probe is recorded.
   */
  lemma NoProbeWhilePaused(steps: seq<Step>, i: nat, j: nat)
    requires IsRun(CREATED, steps)
    requires var log := After(CREATED, steps).log;
      i < j < |log| && log[i].PauseTaken? && forall k :: i < k < j ==> !log[k].UnpauseTaken?
    ensures !After(CREATED, steps).log[j].Probed?
  {
    RunKeepsInv(CREATED, steps);
    var log := After(CREATED, steps).log;
    PausedUntil(log, i, j);
  }

  lemma {:induction false} PausedUntil(log: seq<Entry>, i: nat, j: nat)
    requires i < j <= |log| && log[i].PauseTaken? && forall k :: i < k < j ==> !log[k].UnpauseTaken?
    ensures PausedAfter(log[..j])
  {
    if i + 1 < j {
      PausedUntil(log, i, j - 1);
      assert log[..j][..j - 1] == log[..j - 1];
    }
  }

  // ------------------------------------------------------- what becomes of a request

  /**
   * The control side reads the flag without synchronising.  While a running measurement is paused,
   * an unpause request is dropped exactly when it comes between the loop taking the pause and
   * setting the flag.
   */
  lemma UnpauseDroppedIff(steps: seq<Step>)
    requires IsRun(CREATED, steps)
    requires var w := After(CREATED, steps); w.isRunning && PausedAfter(w.log) && Enabled(w, RequestUnpause)
    ensures var w := After(CREATED, steps); Apply(w, RequestUnpause) == w <==> w.loop.GotPause?
  {
    RunKeepsInv(CREATED, steps);
  }

  /** Outside pauses, a pause request is dropped exactly between taking an unpause and clearing the flag. */
  lemma PauseDroppedIff(steps: seq<Step>)
    requires IsRun(CREATED, steps)
    requires var w := After(CREATED, steps); w.isRunning && !PausedAfter(w.log) && Enabled(w, RequestPause)
    ensures var w := After(CREATED, steps); Apply(w, RequestPause) == w <==> w.loop.GotUnpause?
  {
    RunKeepsInv(CREATED, steps);
  }

  /** Some continuation lets the control action finish, so that the lock is released. */
  ghost predicate CanReturn(w: World) {
    exists steps :: IsRun(w, steps) && After(w, steps).control.Idle?
  }

  /** The loop, if there is one, no longer gets to where it would take the message. */
  ghost predicate Blocked(w: World) {
    match w.control
    case SendingPause =>
      w.loop.NoLoop? || w.loop.GotPause? || (w.isPaused && (w.loop.Top? || w.loop.AwaitUnpause?))
    case SendingUnpause =>
      w.loop.NoLoop? || w.loop.GotUnpause? || (!w.isPaused && (w.loop.Top? || w.loop.Select?))
    case _ => false
  }

  lemma {:induction false} BlockedForGood(w: World, steps: seq<Step>)
    requires Blocked(w) && IsRun(w, steps)
    ensures Blocked(After(w, steps))
    decreases |steps|
  {
    if steps != [] {
      BlockedForGood(Apply(w, steps[0]), steps[1..]);
    }
  }

  lemma ReturnsAfter(w: World, s: Step)
    requires Enabled(w, s) && CanReturn(Apply(w, s))
    ensures CanReturn(w)
  {
    var steps :| IsRun(Apply(w, s), steps) && After(Apply(w, s), steps).control.Idle?;
    var all := [s] + steps;
    assert all[1..] == steps;
    assert IsRun(w, all) && After(w, all).control.Idle?;
  }

  lemma ReturnsNow(w: World)
    requires w.control.Idle?
    ensures CanReturn(w)
  {
    assert IsRun(w, []) && After(w, []) == w;
  }

  /** A message the loop can still take: at most one look at the flag away. */
  lemma OneLookAway(w: World, take: Step)
    requires (take.TakePause? && w.control.SendingPause? && !w.isPaused && (w.loop.Top? || w.loop.Select?))
          || (take.TakeUnpause? && w.control.SendingUnpause? && w.isPaused && (w.loop.Top? || w.loop.AwaitUnpause?))
    ensures CanReturn(w)
    decreases w.loop.Top?
  {
    if w.loop.Top? {
      OneLookAway(Apply(w, CheckPaused), take);
      ReturnsAfter(w, CheckPaused);
    } else {
      ReturnsNow(Apply(w, take));
      ReturnsAfter(w, take);
    }
  }

  /** From wherever the loop is it can get to see the closed stop channel. */
  lemma GatherCanFinish(w: World)
    requires w.control.Gathering?
    ensures CanReturn(w)
    decreases match w.loop case NoLoop => 0 case AwaitUnpause => 1 case Select => 1 case Top => 2 case _ => 3
  {
    var s := match w.loop
      case NoLoop => FinishGather
      case Top => CheckPaused
      case GotPause => SetFlag
      case GotUnpause => ClearFlag
      case _ => SeeStop;
    if w.loop.NoLoop? { ReturnsNow(Apply(w, s)); } else { GatherCanFinish(Apply(w, s)); }
    ReturnsAfter(w, s);
  }

  /** The last start failed: the measurement counts as running, but nothing receives. */
  predicate FailedStart(w: World) {
    w.isRunning && w.loop.NoLoop?
  }

  /** A pause nobody will take: made between taking a pause and setting the flag, or after a failed start. */
  predicate HopelessPause(w: World) {
    w.loop.GotPause? || (FailedStart(w) && !w.isPaused)
  }

  /** Likewise for an unpause; after a failed start, when the flag was left set by an earlier session. */
  predicate HopelessUnpause(w: World) {
    w.loop.GotUnpause? || (FailedStart(w) && w.isPaused)
  }

  /**
   * In every state that any sequence of starts, failed starts, pauses, unpauses and gathers can
   * reach: an action can finish exactly unless it is a hopeless pause or unpause.  Those hold the
   * lock for good, so that no summary can be gathered any more.
   */
  lemma RequestReturnsIff(steps: seq<Step>, request: Step)
    requires IsRun(CREATED, steps) && IsAction(request) && Enabled(After(CREATED, steps), request)
    ensures var w := After(CREATED, steps);
      CanReturn(Apply(w, request))
      <==> !(request.RequestPause? && HopelessPause(w)) && !(request.RequestUnpause? && HopelessUnpause(w))
  {
    RunKeepsInv(CREATED, steps);
    var w' := Apply(After(CREATED, steps), request);
    if w'.control.Idle? {
      ReturnsNow(w');
    } else if w'.control.Gathering? {
      GatherCanFinish(w');
    } else if Blocked(w') {
      forall more | IsRun(w', more) ensures !After(w', more).control.Idle? { BlockedForGood(w', more); }
    } else {
      OneLookAway(w', if request.RequestPause? then TakePause else TakeUnpause);
    }
  }

  // ------------------------------------------------------- sessions

  /** What the starts and finished gathers of a run amount to. */
  datatype Session = NotStarted | Launched | Broken

  function NextSession(x: Session, s: Step): Session {
    if s.FinishGather? then NotStarted
    else if s.Start? && x.NotStarted? then (if s.initialised then Launched else Broken)
    else x
  }

  ghost function SessionAfter(x: Session, steps: seq<Step>): Session
    decreases |steps|
  {
    if steps == [] then x else SessionAfter(NextSession(x, steps[0]), steps[1..])
  }

  ghost predicate InSession(w: World, x: Session) {
    && (w.isRunning <==> !x.NotStarted?)
    && (x.Launched? && w.loop.NoLoop? ==> w.control.Gathering?)
    && (!x.Launched? ==> w.loop.NoLoop?)
  }

  lemma {:induction false} SessionsHold(w: World, x: Session, steps: seq<Step>)
    requires InSession(w, x) && IsRun(w, steps)
    ensures InSession(After(w, steps), SessionAfter(x, steps))
    decreases |steps|
  {
    if steps != [] { SessionsHold(Apply(w, steps[0]), NextSession(x, steps[0]), steps[1..]); }
  }

  /** Read off the calls: the failing state is that of a start that failed and was not gathered since. */
  lemma FailedStartIsHistory(steps: seq<Step>)
    requires IsRun(CREATED, steps) && After(CREATED, steps).control.Idle?
    ensures FailedStart(After(CREATED, steps)) <==> SessionAfter(NotStarted, steps).Broken?
    ensures After(CREATED, steps).isRunning <==> !SessionAfter(NotStarted, steps).NotStarted?
  {
    SessionsHold(CREATED, NotStarted, steps);
  }

  // ------------------------------------------------------- runs that reach the four points

  /** A run continued by one step. */
  lemma {:induction false} RunExtends(w: World, steps: seq<Step>, s: Step)
    requires IsRun(w, steps) && Enabled(After(w, steps), s)
    ensures IsRun(w, steps + [s]) && After(w, steps + [s]) == Apply(After(w, steps), s)
    decreases |steps|
  {
    if steps == [] {
      assert steps + [s] == [s] && [s][1..] == [];
    } else {
      assert (steps + [s])[1..] == steps[1..] + [s];
      RunExtends(Apply(w, steps[0]), steps[1..], s);
    }
  }

  /** A pause has been taken and the flag is not set yet. */
  lemma RunToGotPause() returns (steps: seq<Step>)
    ensures IsRun(CREATED, steps)
    ensures After(CREATED, steps) == World(GotPause, Idle, true, false, [PauseTaken])
  {
    steps := [];
    RunExtends(CREATED, steps, Start(true));
    steps := steps + [Start(true)];
    RunExtends(CREATED, steps, RequestPause);
    steps := steps + [RequestPause];
    RunExtends(CREATED, steps, CheckPaused);
    steps := steps + [CheckPaused];
    RunExtends(CREATED, steps, TakePause);
    steps := steps + [TakePause];
  }

  /** The loop waits for an unpause. */
  lemma RunToPaused() returns (steps: seq<Step>)
    ensures IsRun(CREATED, steps)
    ensures After(CREATED, steps) == World(AwaitUnpause, Idle, true, true, [PauseTaken])
  {
    steps := RunToGotPause();
    RunExtends(CREATED, steps, SetFlag);
    steps := steps + [SetFlag];
    RunExtends(CREATED, steps, CheckPaused);
    steps := steps + [CheckPaused];
  }

  /** An unpause has been taken and the flag is not cleared yet. */
  lemma RunToGotUnpause() returns (steps: seq<Step>)
    ensures IsRun(CREATED, steps)
    ensures After(CREATED, steps) == World(GotUnpause, Idle, true, true, [PauseTaken, UnpauseTaken])
  {
    steps := RunToPaused();
    RunExtends(CREATED, steps, RequestUnpause);
    steps := steps + [RequestUnpause];
    RunExtends(CREATED, steps, TakeUnpause);
    steps := steps + [TakeUnpause];
  }

  /** Gathered while paused, then started again with parameters that cannot be read. */
  lemma RunToFailedRestart() returns (steps: seq<Step>)
    ensures IsRun(CREATED, steps)
    ensures After(CREATED, steps) == World(NoLoop, Idle, true, true, [PauseTaken])
  {
    steps := RunToPaused();
    RunExtends(CREATED, steps, RequestGather);
    steps := steps + [RequestGather];
    RunExtends(CREATED, steps, SeeStop);
    steps := steps + [SeeStop];
    RunExtends(CREATED, steps, FinishGather);
    steps := steps + [FinishGather];
    RunExtends(CREATED, steps, Start(false));
    steps := steps + [Start(false)];
  }

  /** Before the flag is set an unpause is dropped and a second pause never returns. */
  lemma DroppedUnpauseAndBlockingPause() returns (steps: seq<Step>)
    ensures IsRun(CREATED, steps)
    ensures var w := After(CREATED, steps);
      && PausedAfter(w.log) && Enabled(w, RequestUnpause) && Apply(w, RequestUnpause) == w
      && Enabled(w, RequestPause) && !CanReturn(Apply(w, RequestPause))
  {
    steps := RunToGotPause();
    RequestReturnsIff(steps, RequestPause);
  }

  /** Before the flag is cleared a pause is dropped and a second unpause never returns. */
  lemma DroppedPauseAndBlockingUnpause() returns (steps: seq<Step>)
    ensures IsRun(CREATED, steps)
    ensures var w := After(CREATED, steps);
      && !PausedAfter(w.log) && Enabled(w, RequestPause) && Apply(w, RequestPause) == w
      && Enabled(w, RequestUnpause) && !CanReturn(Apply(w, RequestUnpause))
  {
    steps := RunToGotUnpause();
    RequestReturnsIff(steps, RequestUnpause);
  }

  /** One failed start is enough: the first pause after it never returns. */
  lemma FailedStartBlocksPause()
    ensures IsRun(CREATED, [Start(false)])
    ensures var w := After(CREATED, [Start(false)]); Enabled(w, RequestPause) && !CanReturn(Apply(w, RequestPause))
  {
    var steps: seq<Step> := [];
    RunExtends(CREATED, steps, Start(false));
    assert steps + [Start(false)] == [Start(false)];
    RequestReturnsIff([Start(false)], RequestPause);
  }

  /** After a gather while paused, a failed restart makes the first unpause block instead. */
  lemma FailedRestartBlocksUnpause() returns (steps: seq<Step>)
    ensures IsRun(CREATED, steps)
    ensures var w := After(CREATED, steps);
      && Enabled(w, RequestUnpause) && !CanReturn(Apply(w, RequestUnpause)) && Apply(w, RequestPause) == w
  {
    steps := RunToFailedRestart();
    RequestReturnsIff(steps, RequestUnpause);
  }

  /** Probing resumes at once when the flag is cleared, and goes on. */
  lemma ProbesResume() returns (steps: seq<Step>)
    ensures IsRun(CREATED, steps)
    ensures After(CREATED, steps).log == [PauseTaken, UnpauseTaken, Probed, Probed]
  {
    steps := RunToGotUnpause();
    RunExtends(CREATED, steps, ClearFlag);
    steps := steps + [ClearFlag];
    RunExtends(CREATED, steps, Probe);
    steps := steps + [Probe];
    RunExtends(CREATED, steps, CheckPaused);
    steps := steps + [CheckPaused];
    RunExtends(CREATED, steps, Probe);
    steps := steps + [Probe];
  }
}
