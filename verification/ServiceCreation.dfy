/**
 * ServiceCreationLatency: workers record the phases of services and ingresses
 * concurrently, and waitForReady decides by comparing two counts read one after
 * the other.  Each access to the phase table is one atomic step; everything
 * between two accesses may interleave with every other thread.
 */
module ServiceCreation {
  import opened Common
  import opened PhaseLatency

  const CREATING := "creating"
  const ASSIGNING := "ipAssigning"
  const REACHABILITY := "reachability"
  const DELETING := "deleting"
  const DELETED := "deleted"

  const PING_CHECKS := 3

  /** The order in which waitForReady visits the types. */
  const TYPES: seq<string> := ["ClusterIP", "NodePort", "LoadBalancer", "ingress"]

  function PhaseName(phase: string, svcType: string): string {
    phase + "_" + svcType
  }

  /** Distinct (phase, type) pairs never share a name. */
  lemma PhaseNameInjective(p: string, t: string, q: string, u: string)
    requires '_' !in p && '_' !in q
    requires PhaseName(p, t) == PhaseName(q, u)
    ensures p == q && t == u
  {
    var x, y := PhaseName(p, t), PhaseName(q, u);
    assert x[|p|] == '_' && y[|q|] == '_';
    assert p == x[..|p|] && q == y[..|q|];
    assert t == x[|p| + 1..] && u == y[|q| + 1..];
  }

  predicate NeedsAddress(svcType: string) {
    svcType == "LoadBalancer" || svcType == "ingress"
  }

  /** The object a worker handles: its key, type, and whether it already has an ingress address. */
  datatype Task = Task(key: string, svcType: string, hasAddress: bool)

  datatype Worker =
    | Idle
    | GetCreating(t: Task)
    | SetCreating(t: Task)
    | Assigned(t: Task)                 // after the creating phase is known to be recorded
    | SetAssigning(t: Task)
    | Pinging(t: Task, success: nat)
    | SetDeleting(t: Task)
    | SetDeleted(t: Task)

  /** A pair of reads: at which step the reachable and the created keys were counted. */
  datatype Reads = Reads(reachableAt: nat, createdAt: nat)

  datatype Poll =
    | Sleeping
    | CountReachable(done: seq<Reads>)
    | CountCreated(reachable: nat, reachableAt: nat, done: seq<Reads>)
    | Ready(done: seq<Reads>)

  /** `clock` counts the steps taken so far. */
  datatype World = World(times: Times, workers: map<nat, Worker>, poll: Poll, clock: nat)

  datatype Step =
    | Begin(id: nat, t: Task)           // an update notification reaches a worker
    | BeginDelete(id: nat, t: Task)
    | Work(id: nat, now: int, ok: bool) // the worker's next access; `ok` is the ping result
    | StopPing(id: nat)
    | PollStart
    | PollRead

  function WorkerOf(w: World, id: nat): Worker {
    if id in w.workers then w.workers[id] else Idle
  }

  predicate Has(times: Times, t: Task, phase: string) {
    t.key in KeysWith(times, PhaseName(phase, t.svcType))
  }

  function Put(times: Times, t: Task, phase: string, now: int): Times {
    WithTime(times, t.key, PhaseName(phase, t.svcType), now)
  }

  /** One access of one worker: the new table and the worker's next position. */
  function WorkStep(times: Times, w: Worker, now: int, ok: bool): (Times, Worker) {
    match w
    case Idle => (times, Idle)
    case GetCreating(t) => (times, if Has(times, t, CREATING) then Assigned(t) else SetCreating(t))
    case SetCreating(t) => (Put(times, t, CREATING, now), Assigned(t))
    case Assigned(t) =>
      (times, if !NeedsAddress(t.svcType) then Pinging(t, 0)
              else if !t.hasAddress || Has(times, t, ASSIGNING) then Idle
              else SetAssigning(t))
    case SetAssigning(t) => (Put(times, t, ASSIGNING, now), Pinging(t, 0))
    case Pinging(t, n) =>
      if !ok then (times, Pinging(t, 0))
      else if n + 1 == PING_CHECKS then (Put(times, t, REACHABILITY, now), Idle)
      else (times, Pinging(t, n + 1))
    case SetDeleting(t) => (Put(times, t, DELETING, now), SetDeleted(t))
    case SetDeleted(t) => (Put(times, t, DELETED, now), Idle)
  }

  function PollStep(times: Times, p: Poll, clock: nat): Poll {
    match p
    case CountReachable(done) =>
      if |done| < |TYPES| then
        CountCreated(|KeysWith(times, PhaseName(REACHABILITY, TYPES[|done|]))|, clock, done)
      else Ready(done)
    case CountCreated(n, at, done) =>
      if |done| < |TYPES| && |KeysWith(times, PhaseName(CREATING, TYPES[|done|]))| == n then
        CountReachable(done + [Reads(at, clock)])
      else Sleeping
    case _ => p
  }

  /** A step that its thread cannot take changes nothing. */
  function Apply(w: World, s: Step): World {
    var w' := w.(clock := w.clock + 1);
    match s
    case Begin(id, t) =>
      if WorkerOf(w, id).Idle? && t.svcType in TYPES then w'.(workers := w.workers[id := GetCreating(t)]) else w'
    case BeginDelete(id, t) =>
      if WorkerOf(w, id).Idle? then w'.(workers := w.workers[id := SetDeleting(t)]) else w'
    case Work(id, now, ok) =>
      var (times, k) := WorkStep(w.times, WorkerOf(w, id), now, ok);
      w'.(times := times, workers := w.workers[id := k])
    case StopPing(id) =>
      if WorkerOf(w, id).Pinging? then w'.(workers := w.workers[id := Idle]) else w'
    case PollStart => if w.poll.Sleeping? then w'.(poll := CountReachable([])) else w'
    case PollRead => w'.(poll := PollStep(w.times, w.poll, w.clock))
  }

  const INITIAL := World(map[], map[], Sleeping, 0)

  /** The state after the first n steps of a run. */
  ghost function At(steps: seq<Step>, n: nat): World
    requires n <= |steps|
  {
    if n == 0 then INITIAL else Apply(At(steps, n - 1), steps[n - 1])
  }

  ghost function KeysAt(steps: seq<Step>, n: nat, phase: string, svcType: string): set<string>
    requires n <= |steps|
  {
    KeysWith(At(steps, n).times, PhaseName(phase, svcType))
  }

  // ------------------------------------------------------- phases only accumulate, in order

  /** Reachable keys were created, and assigned where an address is needed. */
  ghost predicate PhasesOrdered(times: Times) {
    forall key, svcType :: Has(times, Task(key, svcType, true), REACHABILITY) ==>
      && Has(times, Task(key, svcType, true), CREATING)
      && (NeedsAddress(svcType) ==> Has(times, Task(key, svcType, true), ASSIGNING))
  }

  ghost predicate WorkerOk(times: Times, w: Worker) {
    && (w.Assigned? || w.SetAssigning? || w.Pinging? ==> Has(times, w.t, CREATING))
    && (w.Pinging? && NeedsAddress(w.t.svcType) ==> Has(times, w.t, ASSIGNING))
  }

  ghost predicate Inv(w: World) {
    && PhasesOrdered(w.times)
    && forall id :: id in w.workers ==> WorkerOk(w.times, w.workers[id])
  }

  lemma PutAdds(times: Times, t: Task, phase: string, now: int, t': Task, phase': string)
    requires '_' !in phase && '_' !in phase'
    ensures Has(Put(times, t, phase, now), t', phase')
       <==> Has(times, t', phase') || (t.key == t'.key && t.svcType == t'.svcType && phase == phase')
  {
    if t.key == t'.key && PhaseName(phase, t.svcType) == PhaseName(phase', t'.svcType) {
      PhaseNameInjective(phase, t.svcType, phase', t'.svcType);
    }
  }

  lemma PutKeepsOrder(times: Times, t: Task, phase: string, now: int)
    requires '_' !in phase && PhasesOrdered(times)
    requires phase == REACHABILITY ==> Has(times, t, CREATING) && (NeedsAddress(t.svcType) ==> Has(times, t, ASSIGNING))
    ensures PhasesOrdered(Put(times, t, phase, now))
    ensures forall w :: WorkerOk(times, w) ==> WorkerOk(Put(times, t, phase, now), w)
    ensures Has(Put(times, t, phase, now), t, phase)
  {
    forall t', p | '_' !in p
      ensures Has(Put(times, t, phase, now), t', p)
        <==> Has(times, t', p) || (t.key == t'.key && t.svcType == t'.svcType && phase == p)
    {
      PutAdds(times, t, phase, now, t', p);
    }
  }

  lemma WorkStepKeepsInv(times: Times, w: Worker, now: int, ok: bool)
    requires PhasesOrdered(times) && WorkerOk(times, w)
    ensures var (times', w') := WorkStep(times, w, now, ok);
      && PhasesOrdered(times') && WorkerOk(times', w')
      && forall x :: WorkerOk(times, x) ==> WorkerOk(times', x)
  {
    match w
    case SetCreating(t) => PutKeepsOrder(times, t, CREATING, now);
    case SetAssigning(t) => PutKeepsOrder(times, t, ASSIGNING, now);
    case Pinging(t, n) => PutKeepsOrder(times, t, REACHABILITY, now);
    case SetDeleting(t) => PutKeepsOrder(times, t, DELETING, now);
    case SetDeleted(t) => PutKeepsOrder(times, t, DELETED, now);
    case _ =>
  }

  lemma StepKeepsInv(w: World, s: Step)
    requires Inv(w)
    ensures Inv(Apply(w, s))
  {
    if s.Work? {
      WorkStepKeepsInv(w.times, WorkerOf(w, s.id), s.now, s.ok);
    }
  }

  lemma {:induction false} InvAlways(steps: seq<Step>, n: nat)
    requires n <= |steps|
    ensures Inv(At(steps, n)) && At(steps, n).clock == n
  {
    if n > 0 {
      InvAlways(steps, n - 1);
      StepKeepsInv(At(steps, n - 1), steps[n - 1]);
    }
  }

  lemma StepOnlyAdds(w: World, s: Step, phase: string)
    ensures KeysWith(w.times, phase) <= KeysWith(Apply(w, s).times, phase)
  {
  }

  /** No phase entry is ever removed. */
  lemma {:induction false} KeysOnlyGrow(steps: seq<Step>, m: nat, n: nat, phase: string)
    requires m <= n <= |steps|
    ensures KeysWith(At(steps, m).times, phase) <= KeysWith(At(steps, n).times, phase)
  {
    if m < n {
      KeysOnlyGrow(steps, m, n - 1, phase);
      StepOnlyAdds(At(steps, n - 1), steps[n - 1], phase);
    }
  }

  // ------------------------------------------------------- the two counts

  /**
   * The i-th pair of reads is two steps of the poller: it counted the reachable keys of the i-th
   * type at one, the created keys at a later one, found the counts equal, and had by then completed
   * exactly the earlier pairs of `done`.
   */
  ghost predicate ReadsTaken(steps: seq<Step>, done: seq<Reads>, i: nat) {
    && i < |done| && i < |TYPES|
    && done[i].reachableAt < done[i].createdAt < |steps|
    && steps[done[i].reachableAt].PollRead? && steps[done[i].createdAt].PollRead?
    && At(steps, done[i].reachableAt).poll == CountReachable(done[..i])
    && At(steps, done[i].createdAt).poll
       == CountCreated(|KeysAt(steps, done[i].reachableAt, REACHABILITY, TYPES[i])|, done[i].reachableAt, done[..i])
    && |KeysAt(steps, done[i].reachableAt, REACHABILITY, TYPES[i])| ==
      |KeysAt(steps, done[i].createdAt, CREATING, TYPES[i])|
  }

  /** All pairs were taken, before moment n. */
  ghost predicate AllTaken(steps: seq<Step>, done: seq<Reads>, n: nat) {
    forall i: nat {:trigger ReadsTaken(steps, done, i)} :: i < |done| ==>
      ReadsTaken(steps, done, i) && done[i].createdAt < n
  }

  ghost predicate PollInv(steps: seq<Step>, n: nat)
    requires n <= |steps|
  {
    PollOk(steps, At(steps, n).poll, n)
  }

  ghost predicate PollOk(steps: seq<Step>, p: Poll, n: nat) {
    && (!p.Sleeping? ==> AllTaken(steps, p.done, n) && |p.done| <= |TYPES|)
    && (p.Ready? ==> |p.done| == |TYPES|)
    && (p.CountCreated? ==>
          && |p.done| < |TYPES| && p.reachableAt < n && p.reachableAt < |steps|
          && steps[p.reachableAt].PollRead? && At(steps, p.reachableAt).poll == CountReachable(p.done)
          && p.reachable == |KeysAt(steps, p.reachableAt, REACHABILITY, TYPES[|p.done|])|)
  }

  lemma PollOkLater(steps: seq<Step>, p: Poll, n: nat)
    requires PollOk(steps, p, n)
    ensures PollOk(steps, p, n + 1)
  {
    if !p.Sleeping? { TakenLater(steps, p.done, n); }
  }

  lemma TakenExtends(steps: seq<Step>, done: seq<Reads>, r: Reads, n: nat)
    requires AllTaken(steps, done, n) && ReadsTaken(steps, done + [r], |done|) && r.createdAt == n
    ensures AllTaken(steps, done + [r], n + 1)
  {
    forall i: nat | i < |done + [r]| ensures ReadsTaken(steps, done + [r], i) && (done + [r])[i].createdAt < n + 1 {
      if i < |done| {
        assert ReadsTaken(steps, done, i);
        assert (done + [r])[..i] == done[..i];
      }
    }
  }

  /** The poller's own step keeps the invariant. */
  lemma PollReadKeepsInv(steps: seq<Step>, n: nat)
    requires n < |steps| && PollInv(steps, n) && steps[n].PollRead? && At(steps, n).clock == n
    ensures PollInv(steps, n + 1)
  {
    var w := At(steps, n);
    var p, p' := w.poll, At(steps, n + 1).poll;
    assert p' == PollStep(w.times, p, n);
    match p
    case Sleeping =>
    case Ready(done) => TakenLater(steps, done, n);
    case CountReachable(done) =>
      TakenLater(steps, done, n);
      assert |done| < |TYPES| ==> p' == CountCreated(|KeysAt(steps, n, REACHABILITY, TYPES[|done|])|, n, done);
    case CountCreated(count, at, done) =>
      if !p'.Sleeping? {
        var r := Reads(at, n);
        assert (done + [r])[..|done|] == done;
        TakenExtends(steps, done, r, n);
      }
  }

  lemma TakenLater(steps: seq<Step>, done: seq<Reads>, n: nat)
    requires AllTaken(steps, done, n)
    ensures AllTaken(steps, done, n + 1)
  {
  }

  lemma PollUntouched(w: World, s: Step)
    requires !s.PollRead?
    ensures Apply(w, s).poll == w.poll || (w.poll.Sleeping? && Apply(w, s).poll == CountReachable([]))
  {
  }

  lemma {:induction false} PollInvAlways(steps: seq<Step>, n: nat)
    requires n <= |steps|
    ensures PollInv(steps, n)
  {
    if n > 0 {
      PollInvAlways(steps, n - 1);
      InvAlways(steps, n - 1);
      if steps[n - 1].PollRead? {
        PollReadKeepsInv(steps, n - 1);
      } else {
        PollUntouched(At(steps, n - 1), steps[n - 1]);
        PollOkLater(steps, At(steps, n - 1).poll, n - 1);
      }
    }
  }

  /**
   * At moments a <= b: every key created by b was reachable at a, had its address phase there
   * where it needs one, and is still reachable after the run.
   */
  ghost predicate ReadyBetween(steps: seq<Step>, svcType: string, a: nat, b: nat) {
    && a <= b <= |steps|
    && KeysAt(steps, b, CREATING, svcType) == KeysAt(steps, a, REACHABILITY, svcType)
    && (svcType == "LoadBalancer" || svcType == "ingress" ==>
          KeysAt(steps, a, REACHABILITY, svcType) <= KeysAt(steps, a, ASSIGNING, svcType))
    && KeysAt(steps, a, REACHABILITY, svcType) <= KeysAt(steps, |steps|, REACHABILITY, svcType)
  }

  /**
   * Over every interleaving: when waitForReady reports done, the last poll made one pair of reads
   * per type, in the order of the types, and each pair proves that every key created by its second
   * read was already reachable at its first.
   */
  lemma WaitForReadySound(steps: seq<Step>, i: nat)
    requires At(steps, |steps|).poll.Ready? && i < |TYPES|
    ensures var done := At(steps, |steps|).poll.done;
      && |done| == |TYPES|
      && ReadsTaken(steps, done, i)
      && (i > 0 ==> done[i - 1].createdAt < done[i].reachableAt)
      && ReadyBetween(steps, TYPES[i], done[i].reachableAt, done[i].createdAt)
  {
    PollInvAlways(steps, |steps|);
    var done := At(steps, |steps|).poll.done;
    assert ReadsTaken(steps, done, i);
    ReadsProveReadiness(steps, TYPES[i], done[i].reachableAt, done[i].createdAt);
    PollInvAlways(steps, done[i].reachableAt);
    assert i > 0 ==> ReadsTaken(steps, done[..i], i - 1);
  }

  /** The four pairs of reads, by type. */
  lemma FourTypesReady(steps: seq<Step>)
    requires At(steps, |steps|).poll.Ready?
    ensures var done := At(steps, |steps|).poll.done;
      && |done| == 4
      && ReadyBetween(steps, "ClusterIP", done[0].reachableAt, done[0].createdAt)
      && ReadyBetween(steps, "NodePort", done[1].reachableAt, done[1].createdAt)
      && ReadyBetween(steps, "LoadBalancer", done[2].reachableAt, done[2].createdAt)
      && ReadyBetween(steps, "ingress", done[3].reachableAt, done[3].createdAt)
  {
    WaitForReadySound(steps, 0);
    WaitForReadySound(steps, 1);
    WaitForReadySound(steps, 2);
    WaitForReadySound(steps, 3);
  }

  // ------------------------------------------------------- what a recorded phase means

  /** The last m accesses of the worker before n were successful pings. */
  ghost predicate Pinged(steps: seq<Step>, n: nat, id: nat, at: seq<nat>) {
    && (forall i, j :: 0 <= i < j < |at| ==> at[i] < at[j])
    && (forall i :: 0 <= i < |at| ==> at[i] < n && at[i] < |steps| && steps[at[i]].Work? && steps[at[i]].id == id
                                      && steps[at[i]].ok)
    && (at != [] ==> forall k :: at[0] <= k < n && k < |steps| && steps[k].Work? && steps[k].id == id ==> k in at)
  }

  lemma PingedExtends(steps: seq<Step>, n: nat, id: nat, at: seq<nat>)
    requires n < |steps| && Pinged(steps, n, id, at) && steps[n].Work? && steps[n].id == id && steps[n].ok
    ensures Pinged(steps, n + 1, id, at + [n])
  {
    var all := at + [n];
    forall k | all[0] <= k < n + 1 && steps[k].Work? && steps[k].id == id ensures k in all {
      assert all[|at|] == n;
      if k < n { assert k in at; }
    }
  }

  lemma PingedIdle(steps: seq<Step>, n: nat, id: nat, at: seq<nat>)
    requires n < |steps| && Pinged(steps, n, id, at) && !(steps[n].Work? && steps[n].id == id)
    ensures Pinged(steps, n + 1, id, at)
  {
  }

  /** A step either leaves a pinging worker alone or is its own access: a miss, or one more answer. */
  lemma PingStep(w: World, s: Step, id: nat)
    requires WorkerOf(Apply(w, s), id).Pinging?
    ensures var k, k' := WorkerOf(w, id), WorkerOf(Apply(w, s), id);
      if s.Work? && s.id == id then k'.success > 0 ==> s.ok && k.Pinging? && k'.success == k.success + 1
      else k' == k
  {
  }

  lemma {:induction false} PingsBehind(steps: seq<Step>, n: nat, id: nat) returns (at: seq<nat>)
    requires n <= |steps|
    ensures Pinged(steps, n, id, at)
    ensures WorkerOf(At(steps, n), id).Pinging? ==> |at| == WorkerOf(At(steps, n), id).success
  {
    at := [];
    if n > 0 && WorkerOf(At(steps, n), id).Pinging? {
      var s, success := steps[n - 1], WorkerOf(At(steps, n), id).success;
      PingStep(At(steps, n - 1), s, id);
      var before := PingsBehind(steps, n - 1, id);
      if !(s.Work? && s.id == id) {
        at := before;
        PingedIdle(steps, n - 1, id, before);
      } else if success > 0 {
        at := before + [n - 1];
        PingedExtends(steps, n - 1, id, before);
      }
    }
  }

  /** In every run: a service that counts as reachable answered three accesses of one worker in a row. */
  lemma {:induction false} ReachableAnsweredThrice(steps: seq<Step>, n: nat, key: string, svcType: string)
    returns (id: nat, at: seq<nat>, m: nat)
    requires n <= |steps| && key in KeysAt(steps, n, REACHABILITY, svcType)
    ensures m <= n && |at| == 3 && Pinged(steps, m, id, at) && at[2] == m - 1
    ensures WorkerOf(At(steps, at[2]), id).Pinging?
    ensures WorkerOf(At(steps, at[2]), id).t.key == key && WorkerOf(At(steps, at[2]), id).t.svcType == svcType
  {
    if key in KeysAt(steps, n - 1, REACHABILITY, svcType) {
      id, at, m := ReachableAnsweredThrice(steps, n - 1, key, svcType);
    } else {
      var w, s := At(steps, n - 1), steps[n - 1];
      var k := WorkerOf(w, s.id);
      var t := Task(key, svcType, true);
      assert Has(At(steps, n).times, t, REACHABILITY) && !Has(w.times, t, REACHABILITY);
      NewPhase(w.times, k, s.now, s.ok, t);
      id, m := s.id, n;
      at := PingsBehind(steps, n - 1, id);
      PingedExtends(steps, n - 1, id, at);
      at := at + [n - 1];
    }
  }

  /** Only the third answer in a row records reachability. */
  lemma NewPhase(times: Times, k: Worker, now: int, ok: bool, t: Task)
    requires !Has(times, t, REACHABILITY) && Has(WorkStep(times, k, now, ok).0, t, REACHABILITY)
    ensures k.Pinging? && k.success == 2 && ok && k.t.key == t.key && k.t.svcType == t.svcType
  {
    match k
    case SetCreating(u) => PutAdds(times, u, CREATING, now, t, REACHABILITY);
    case SetAssigning(u) => PutAdds(times, u, ASSIGNING, now, t, REACHABILITY);
    case Pinging(u, _) => PutAdds(times, u, REACHABILITY, now, t, REACHABILITY);
    case SetDeleting(u) => PutAdds(times, u, DELETING, now, t, REACHABILITY);
    case SetDeleted(u) => PutAdds(times, u, DELETED, now, t, REACHABILITY);
    case _ =>
  }

  ghost predicate RecordedOn(times: Times, key: string, svcType: string, phase: string, time: int) {
    var name := PhaseName(phase, svcType);
    key in times && name in times[key] && times[key][name] == time
  }

  /** The worker has found the phase missing and is about to record it. */
  ghost predicate AboutToRecord(k: Worker, key: string, svcType: string, phase: string) {
    && (if phase == CREATING then k.SetCreating? else k.SetAssigning?)
    && k.t.key == key && k.t.svcType == svcType
  }

  ghost predicate NonePending(w: World, key: string, svcType: string, phase: string) {
    forall id :: id in w.workers ==> !AboutToRecord(w.workers[id], key, svcType, phase)
  }

  /**
   * Later updates do not move the time of creation, nor that of the address: once recorded, and no
   * other worker about to record it, it never changes.
   */
  lemma {:induction false} FirstTimeStays(steps: seq<Step>, m: nat, n: nat, key: string, svcType: string, phase: string,
                                          time: int)
    requires m <= n <= |steps| && (phase == CREATING || phase == ASSIGNING)
    requires RecordedOn(At(steps, m).times, key, svcType, phase, time) && NonePending(At(steps, m), key, svcType, phase)
    ensures RecordedOn(At(steps, n).times, key, svcType, phase, time) && NonePending(At(steps, n), key, svcType, phase)
  {
    if m < n {
      FirstTimeStays(steps, m, n - 1, key, svcType, phase, time);
      FirstTimeStep(At(steps, n - 1), steps[n - 1], key, svcType, phase, time);
    }
  }

  lemma FirstTimeStep(w: World, s: Step, key: string, svcType: string, phase: string, time: int)
    requires phase == CREATING || phase == ASSIGNING
    requires RecordedOn(w.times, key, svcType, phase, time) && NonePending(w, key, svcType, phase)
    ensures RecordedOn(Apply(w, s).times, key, svcType, phase, time) && NonePending(Apply(w, s), key, svcType, phase)
  {
    if s.Work? {
      var k := WorkerOf(w, s.id);
      if !k.Idle? && !k.GetCreating? && !k.Assigned? {
        var p := match k
          case SetCreating(_) => CREATING
          case SetAssigning(_) => ASSIGNING
          case SetDeleting(_) => DELETING
          case SetDeleted(_) => DELETED
          case _ => REACHABILITY;
        assert CREATING[0] == 'c' && ASSIGNING[0] == 'i' && REACHABILITY[0] == 'r' && DELETING[0] == DELETED[0] == 'd';
        if PhaseName(p, k.t.svcType) == PhaseName(phase, svcType) {
          PhaseNameInjective(p, k.t.svcType, phase, svcType);
        }
      }
    }
  }

  /** Updates of the four types are taken up by an idle worker; others are ignored. */
  lemma TypesTakenUp(w: World, id: nat, t: Task)
    requires WorkerOf(w, id).Idle?
    ensures WorkerOf(Apply(w, Begin(id, t)), id)
         == if t.svcType == "ClusterIP" || t.svcType == "NodePort" || t.svcType == "LoadBalancer" || t.svcType ==
           "ingress"
            then GetCreating(t) else Idle
  {
    assert TYPES[0] == "ClusterIP" && TYPES[1] == "NodePort" && TYPES[2] == "LoadBalancer" && TYPES[3] == "ingress";
  }

  /** A stopped ping records nothing more. */
  lemma StoppedPingIsOver(w: World, id: nat, now: int, ok: bool)
    requires WorkerOf(w, id).Pinging?
    ensures var w' := Apply(w, StopPing(id)); w'.times == w.times && Apply(w', Work(id, now, ok)).times == w.times
  {
  }

  /** The first update with an address is recorded with its time, and the service is then pinged. */
  lemma AddressIsRecorded(w: World, id: nat, t: Task, now: int)
    requires WorkerOf(w, id) == Assigned(t) && (t.svcType == "LoadBalancer" || t.svcType == "ingress")
    requires t.hasAddress && !Has(w.times, t, ASSIGNING)
    ensures var w' := Apply(Apply(w, Work(id, now, true)), Work(id, now, true));
      RecordedOn(w'.times, t.key, t.svcType, ASSIGNING, now) && WorkerOf(w', id) == Pinging(t, 0)
  {
  }

  /** An update brought the task before moment n. */
  ghost predicate Delivered(steps: seq<Step>, n: nat, t: Task) {
    exists i :: 0 <= i < n && i < |steps| && steps[i].Begin? && steps[i].t == t
  }

  ghost predicate FromUpdate(k: Worker) {
    k.GetCreating? || k.SetCreating? || k.Assigned? || k.SetAssigning? || k.Pinging?
  }

  lemma DeliveredLater(steps: seq<Step>, n: nat, t: Task)
    requires Delivered(steps, n, t)
    ensures Delivered(steps, n + 1, t)
  {
  }

  /** A worker handles what an update brought; it records an address only if the update had one. */
  lemma {:induction false} WorkersHandleUpdates(steps: seq<Step>, n: nat, id: nat)
    requires n <= |steps|
    ensures var k := WorkerOf(At(steps, n), id);
      && (FromUpdate(k) ==> Delivered(steps, n, k.t))
      && (k.SetAssigning? ==> k.t.hasAddress)
  {
    if n > 0 {
      WorkersHandleUpdates(steps, n - 1, id);
      var k, k', s := WorkerOf(At(steps, n - 1), id), WorkerOf(At(steps, n), id), steps[n - 1];
      if FromUpdate(k') {
        if FromUpdate(k) { DeliveredLater(steps, n - 1, k.t); } else { assert s.Begin? && s.t == k'.t; }
      }
    }
  }

  /** In every run: a service with a recorded address got it from an update that carried one. */
  lemma {:induction false} AddressWasDelivered(steps: seq<Step>, n: nat, key: string, svcType: string) returns (t: Task)
    requires n <= |steps| && key in KeysAt(steps, n, ASSIGNING, svcType)
    ensures t.key == key && t.svcType == svcType && t.hasAddress && Delivered(steps, n, t)
  {
    if key in KeysAt(steps, n - 1, ASSIGNING, svcType) {
      t := AddressWasDelivered(steps, n - 1, key, svcType);
      DeliveredLater(steps, n - 1, t);
    } else {
      var w, s := At(steps, n - 1), steps[n - 1];
      t := WorkerOf(w, s.id).t;
      NewAddress(w.times, WorkerOf(w, s.id), s.now, s.ok, Task(key, svcType, true));
      WorkersHandleUpdates(steps, n - 1, s.id);
      DeliveredLater(steps, n - 1, t);
    }
  }

  lemma NewAddress(times: Times, k: Worker, now: int, ok: bool, t: Task)
    requires !Has(times, t, ASSIGNING) && Has(WorkStep(times, k, now, ok).0, t, ASSIGNING)
    ensures k.SetAssigning? && SameService(k.t, t)
  {
    assert CREATING[0] == 'c' && ASSIGNING[0] == 'i' && REACHABILITY[0] == 'r' && DELETING[0] == DELETED[0] == 'd';
    match k
    case SetCreating(u) => PutAdds(times, u, CREATING, now, t, ASSIGNING);
    case SetAssigning(u) => PutAdds(times, u, ASSIGNING, now, t, ASSIGNING);
    case Pinging(u, _) => PutAdds(times, u, REACHABILITY, now, t, ASSIGNING);
    case SetDeleting(u) => PutAdds(times, u, DELETING, now, t, ASSIGNING);
    case SetDeleted(u) => PutAdds(times, u, DELETED, now, t, ASSIGNING);
    case _ =>
  }

  // ------------------------------------------------------- a poll that nobody disturbs

  /** From n on only the poller moves. */
  ghost predicate QuietPoll(steps: seq<Step>, n: nat, m: nat) {
    n + m < |steps| && steps[n].PollStart? && forall i :: n < i <= n + m ==> steps[i].PollRead?
  }

  ghost predicate CountsAgree(times: Times, i: nat)
    requires i < |TYPES|
  {
    |KeysWith(times, PhaseName(REACHABILITY, TYPES[i]))| == |KeysWith(times, PhaseName(CREATING, TYPES[i]))|
  }

  lemma {:induction false} QuietPollAdvances(steps: seq<Step>, n: nat, j: nat)
    requires j <= |TYPES| && QuietPoll(steps, n, 2 * j) && At(steps, n).poll.Sleeping?
    requires forall i: nat :: i < j ==> CountsAgree(At(steps, n).times, i)
    ensures At(steps, n + 1 + 2 * j).times == At(steps, n).times
    ensures At(steps, n + 1 + 2 * j).poll.CountReachable? && |At(steps, n + 1 + 2 * j).poll.done| == j
  {
    if j > 0 {
      QuietPollAdvances(steps, n, j - 1);
      var k := n + 1 + 2 * (j - 1);
      assert CountsAgree(At(steps, n).times, j - 1);
      assert steps[k].PollRead? && steps[k + 1].PollRead?;
      var w1 := At(steps, k + 1);
      assert w1.poll.CountCreated? && w1.times == At(steps, n).times;
    }
  }

  /** Completeness: if for every type as many services are reachable as created, an undisturbed poll says so. */
  lemma ReadyIsReported(steps: seq<Step>, n: nat)
    requires QuietPoll(steps, n, 9) && At(steps, n).poll.Sleeping?
    requires forall i: nat :: i < |TYPES| ==> CountsAgree(At(steps, n).times, i)
    ensures At(steps, n + 10).poll.Ready?
  {
    QuietPollAdvances(steps, n, 4);
    assert steps[n + 9].PollRead?;
  }

  // ------------------------------------------------------- deletion

  ghost predicate SameService(u: Task, t: Task) {
    u.key == t.key && u.svcType == t.svcType
  }

  /** A key that counts as deleted, or is about to, was recorded as being deleted. */
  ghost predicate DeletionInOrder(w: World, t: Task) {
    && (Has(w.times, t, DELETED) ==> Has(w.times, t, DELETING))
    && forall id :: id in w.workers && w.workers[id].SetDeleted? && SameService(w.workers[id].t, t) ==>
         Has(w.times, t, DELETING)
  }

  lemma {:induction false} DeletedWasDeleting(steps: seq<Step>, n: nat, t: Task)
    requires n <= |steps|
    ensures DeletionInOrder(At(steps, n), t)
  {
    if n > 0 {
      DeletedWasDeleting(steps, n - 1, t);
      var w, s := At(steps, n - 1), steps[n - 1];
      if s.Work? {
        PhaseAfterWork(w.times, WorkerOf(w, s.id), s.now, s.ok, t, DELETED);
        PhaseAfterWork(w.times, WorkerOf(w, s.id), s.now, s.ok, t, DELETING);
      }
    }
  }

  /** A deletion taken up by an idle worker is recorded with its next two accesses. */
  lemma DeletionIsRecorded(w: World, id: nat, t: Task, now: int, later: int)
    requires WorkerOf(w, id).Idle?
    ensures var times := Apply(Apply(Apply(w, BeginDelete(id, t)), Work(id, now, true)), Work(id, later, true)).times;
      RecordedOn(times, t.key, t.svcType, DELETING, now) && RecordedOn(times, t.key, t.svcType, DELETED, later)
  {
    assert |PhaseName(DELETING, t.svcType)| != |PhaseName(DELETED, t.svcType)|;
  }

  /** When one access adds one of a deletion's two phases. */
  lemma PhaseAfterWork(times: Times, k: Worker, now: int, ok: bool, t: Task, p: string)
    requires p == DELETED || p == DELETING
    ensures var adds := (if p == DELETED then k.SetDeleted? else k.SetDeleting?) && SameService(k.t, t);
      Has(WorkStep(times, k, now, ok).0, t, p) <==> Has(times, t, p) || adds
  {
    assert CREATING[0] == 'c' && ASSIGNING[0] == 'i' && REACHABILITY[0] == 'r' && |DELETING| != |DELETED|;
    match k
    case SetCreating(u) => PutAdds(times, u, CREATING, now, t, p);
    case SetAssigning(u) => PutAdds(times, u, ASSIGNING, now, t, p);
    case Pinging(u, _) => PutAdds(times, u, REACHABILITY, now, t, p);
    case SetDeleting(u) => PutAdds(times, u, DELETING, now, t, p);
    case SetDeleted(u) => PutAdds(times, u, DELETED, now, t, p);
    case _ =>
  }

  /** Equal counts with the reachable keys counted first. */
  lemma ReadsProveReadiness(steps: seq<Step>, svcType: string, a: nat, b: nat)
    requires a <= b <= |steps|
    requires |KeysAt(steps, a, REACHABILITY, svcType)| == |KeysAt(steps, b, CREATING, svcType)|
    ensures ReadyBetween(steps, svcType, a, b)
  {
    InvAlways(steps, a);
    forall k | k in KeysAt(steps, a, REACHABILITY, svcType)
      ensures k in KeysAt(steps, a, CREATING, svcType)
      ensures NeedsAddress(svcType) ==> k in KeysAt(steps, a, ASSIGNING, svcType)
    {
      assert Has(At(steps, a).times, Task(k, svcType, true), REACHABILITY);
    }
    KeysOnlyGrow(steps, a, b, PhaseName(CREATING, svcType));
    KeysOnlyGrow(steps, a, |steps|, PhaseName(REACHABILITY, svcType));
    SubsetOfSameSize(KeysAt(steps, a, REACHABILITY, svcType), KeysAt(steps, b, CREATING, svcType));
  }

  // ------------------------------------------------------- the ping loop

  /** One turn of the loop: stopped, no exec pod or a failed curl, or every address answered. */
  datatype Ping = Stopped | Missed | Answered

  /** Turn i and the two before it all answered. */
  ghost predicate EnoughAnswers(pings: seq<Ping>, i: nat) {
    2 <= i < |pings| && pings[i - 2].Answered? && pings[i - 1].Answered? && pings[i].Answered?
  }

  /** Reachability is recorded at the first moment of enough consecutive answers, and never after a stop. */
  method RunPingChecker(pings: seq<Ping>) returns (reachedAt: Option<nat>)
    ensures reachedAt.Some? ==>
      && EnoughAnswers(pings, reachedAt.value)
      && (forall j: nat :: j < reachedAt.value ==> !EnoughAnswers(pings, j) && !pings[j].Stopped?)
    ensures reachedAt.None? ==>
      forall i: nat :: EnoughAnswers(pings, i) ==> exists j :: 0 <= j < i && pings[j].Stopped?
  {
    var success, i := 0, 0;
    while i < |pings|
      invariant 0 <= i <= |pings| && 0 <= success < PING_CHECKS && success <= i
      invariant forall k :: i - success <= k < i ==> pings[k].Answered?
      invariant i > success ==> !pings[i - success - 1].Answered?
      invariant forall j: nat :: j < i ==> !EnoughAnswers(pings, j) && !pings[j].Stopped?
    {
      match pings[i] {
        case Stopped =>
          return None;
        case Missed =>
          success := 0;
        case Answered =>
          success := success + 1;
          if success == PING_CHECKS {
            return Some(i);
          }
      }
      i := i + 1;
    }
    return None;
  }

  // ------------------------------------------------------- the read order matters

  ghost function ReversedRun(): seq<Step> {
    [Begin(0, Task("a", "ClusterIP", false)), Work(0, 0, true), Work(0, 0, true),
     Begin(1, Task("b", "ClusterIP", false)), Work(1, 0, true), Work(1, 0, true), Work(1, 0, true),
     Work(1, 0, true), Work(1, 0, true), Work(1, 0, true)]
  }

  /** One step of a run, from a known state. */
  lemma Advance(steps: seq<Step>, n: nat, s: Step, w: World, w': World)
    requires n < |steps| && steps[n] == s && At(steps, n) == w && Apply(w, s) == w'
    ensures At(steps, n + 1) == w'
  {
  }

  /** Handling a new ClusterIP service up to the recorded creating phase. */
  lemma CreateService(steps: seq<Step>, n: nat, id: nat, key: string, w: World)
    requires n + 3 <= |steps| && At(steps, n) == w && WorkerOf(w, id).Idle? && key !in w.times
    requires steps[n] == Begin(id, Task(key, "ClusterIP", false)) && steps[n + 1] == steps[n + 2] == Work(id, 0, true)
    ensures At(steps, n + 3) == World(w.times[key := map[PhaseName(CREATING, "ClusterIP") := 0]],
                                      w.workers[id := Assigned(Task(key, "ClusterIP", false))], w.poll, w.clock + 3)
  {
    var t := Task(key, "ClusterIP", false);
    assert TYPES[0] == "ClusterIP";
    var w1 := w.(workers := w.workers[id := GetCreating(t)], clock := w.clock + 1);
    var w2 := w.(workers := w.workers[id := SetCreating(t)], clock := w.clock + 2);
    assert w1.workers[id := SetCreating(t)] == w2.workers;
    Advance(steps, n, steps[n], w, w1);
    Advance(steps, n + 1, steps[n + 1], w1, w2);
    var w3 := Apply(w2, steps[n + 2]);
    assert w2.workers[id := Assigned(t)] == w.workers[id := Assigned(t)];
    Advance(steps, n + 2, steps[n + 2], w2, w3);
  }

  /** Three successful pings of a created ClusterIP service. */
  lemma PingService(steps: seq<Step>, n: nat, id: nat, t: Task, w: World)
    requires n + 4 <= |steps| && At(steps, n) == w && WorkerOf(w, id) == Assigned(t) && t.svcType == "ClusterIP"
    requires steps[n] == steps[n + 1] == steps[n + 2] == steps[n + 3] == Work(id, 0, true)
    ensures At(steps, n + 4).times == Put(w.times, t, REACHABILITY, 0)
  {
    var w1 := w.(workers := w.workers[id := Pinging(t, 0)], clock := w.clock + 1);
    var w2 := w.(workers := w.workers[id := Pinging(t, 1)], clock := w.clock + 2);
    var w3 := w.(workers := w.workers[id := Pinging(t, 2)], clock := w.clock + 3);
    assert w1.workers[id := Pinging(t, 1)] == w2.workers && w2.workers[id := Pinging(t, 2)] == w3.workers;
    Advance(steps, n, steps[n], w, w1);
    Advance(steps, n + 1, steps[n + 1], w1, w2);
    Advance(steps, n + 2, steps[n + 2], w2, w3);
  }

  /** The table after the first service is created. */
  lemma ReversedFirst(steps: seq<Step>, a: nat, c: string)
    requires steps == ReversedRun() && a == 3 && c == PhaseName(CREATING, "ClusterIP")
    ensures At(steps, a)
         == World(map["a" := map[c := 0]], map[0 := Assigned(Task("a", "ClusterIP", false))], Sleeping, a)
  {
    CreateService(steps, a - 3, 0, "a", INITIAL);
  }

  /** The state after the second service is created too. */
  lemma ReversedSecond(steps: seq<Step>, a: nat, c: string)
    requires steps == ReversedRun() && a == 3 && c == PhaseName(CREATING, "ClusterIP")
    ensures At(steps, a + 3).times == map["a" := map[c := 0], "b" := map[c := 0]]
    ensures WorkerOf(At(steps, a + 3), 1) == Assigned(Task("b", "ClusterIP", false))
  {
    ReversedFirst(steps, a, c);
    CreateService(steps, a, 1, "b", At(steps, a));
  }

  /** The table after the second service is pinged. */
  lemma ReversedThird(steps: seq<Step>, a: nat, c: string, r: string)
    requires steps == ReversedRun() && a == 3
    requires c == PhaseName(CREATING, "ClusterIP") && r == PhaseName(REACHABILITY, "ClusterIP")
    ensures At(steps, a + 7).times == map["a" := map[c := 0], "b" := map[c := 0, r := 0]]
  {
    ReversedSecond(steps, a, c);
    PingService(steps, a + 3, 1, Task("b", "ClusterIP", false), At(steps, a + 3));
  }

  lemma ReversedKeys(steps: seq<Step>, a: nat, b: nat)
    requires steps == ReversedRun() && a == 3 && b == 10
    ensures KeysAt(steps, a, CREATING, "ClusterIP") == {"a"}
    ensures KeysAt(steps, b, REACHABILITY, "ClusterIP") == {"b"}
  {
    var c, r := PhaseName(CREATING, "ClusterIP"), PhaseName(REACHABILITY, "ClusterIP");
    assert c[0] != r[0];
    ReversedFirst(steps, a, c);
    ReversedThird(steps, a, c, r);
    assert a + 7 == b;
  }

  /** Counting the created keys first proves nothing: equal counts, yet a created key is not reachable. */
  lemma ReversedOrderUnsound() returns (steps: seq<Step>, a: nat, b: nat)
    ensures a <= b <= |steps|
    ensures |KeysAt(steps, a, CREATING, "ClusterIP")| == |KeysAt(steps, b, REACHABILITY, "ClusterIP")|
    ensures "a" in KeysAt(steps, a, CREATING, "ClusterIP") && "a" !in KeysAt(steps, b, REACHABILITY, "ClusterIP")
  {
    steps, a, b := ReversedRun(), 3, 10;
    ReversedKeys(steps, a, b);
  }
}
