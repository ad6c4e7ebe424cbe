/**
 * The measurement as a whole: the pod index, the event handler and the waits of the checkers run
 * side by side, and `gather` counts.  A checker becomes Running only through a wait that listed the
 * pods of its object from the index and saw the goal.
 */
module ControlledPodsGather {
  import opened Common
  import Index = ControlledPodsIndexer
  import Barrier = ControlledPodsBarrier
  import Pods

  /** A turn of a wait, with the index and the pod contents at that moment. */
  datatype Look = Look(turn: Pods.Turn, index: Index.World, bodies: map<string, Pods.Pod>)

  /** The wait started with a checker: whose pods it lists, when a pod counts as updated, its turns so far. */
  datatype Wait = Wait(kind: Index.Kind, owner: Index.UID, check: Pods.UpdateCheck, looks: seq<Look>)

  /** `bodies` holds the contents of the stored pods by key; `waits` those of the checkers by key. */
  datatype World = World(
    index: Index.World, bodies: map<string, Pods.Pod>, barrier: Barrier.System, waits: map<string, Wait>)

  datatype Step =
    | Indexing(s: Index.Step, body: Pods.Pod)        // the body matters for a stored pod only
    | Handle(created: bool, wait: Wait)              // the next event; `wait` is that of a created checker
    | Turn(key: string, turn: Pods.Turn)
    | Return(key: string, first: Option<seq<Pods.Pod>>, r: Pods.WaitResult, at: nat, status: Barrier.Status)

  const CREATED := World(Index.INITIAL, map[], Barrier.STARTED, map[])

  // ------------------------------------------------------- steps

  /** `listing` holds the contents of the owned pods, each once, in some order. */
  ghost predicate Lists(pods: map<string, Index.Pod>, rs: map<Index.UID, Index.ReplicaSet>,
                        bodies: map<string, Pods.Pod>, wait: Wait, listing: seq<Pods.Pod>)
  {
    exists found :: ListsAs(pods, rs, bodies, wait, listing, found)
  }

  ghost predicate ListsAs(pods: map<string, Index.Pod>, rs: map<Index.UID, Index.ReplicaSet>,
                          bodies: map<string, Pods.Pod>, wait: Wait, listing: seq<Pods.Pod>, found: seq<Index.Pod>)
  {
    && Distinct(found) && |listing| == |found|
    && (forall p :: p in found <==> Index.Owned(pods, rs, wait.kind, wait.owner, p))
    && (forall i :: 0 <= i < |found| ==> found[i].key in bodies && listing[i] == bodies[found[i].key])
  }

  ghost function Turns(looks: seq<Look>): seq<Pods.Turn> {
    seq(|looks|, i requires 0 <= i < |looks| => looks[i].turn)
  }

  /** The wait of a checker has not returned yet. */
  ghost predicate Waiting(w: World, key: string) {
    key in w.barrier.s.checkers && w.barrier.s.checkers[key].status.Unknown? && key in w.waits
  }

  /** The status a finished wait sets; a failed listing counts as late when the deadline has passed meanwhile. */
  ghost predicate Sets(isDeleted: bool, r: Pods.WaitResult, status: Barrier.Status) {
    var late := if isDeleted then Barrier.DeleteTimedOut else Barrier.TimedOut;
    match r
    case Reached => status == if isDeleted then Barrier.Gone else Barrier.Running
    case Ended(_, deadlineExceeded) => status == if deadlineExceeded then late else Barrier.Failed
    case ListFailed => status == late || status == Barrier.Failed
    case StillWaiting => false
  }

  /** What the goroutine of a checker does with the outcome of its wait. */
  method SetStatus(r: Pods.WaitResult, deadlinePassed: bool, isDeleted: bool) returns (status: Barrier.Status)
    requires !r.StillWaiting? && (r.Ended? ==> deadlinePassed == r.deadlineExceeded)
    ensures Sets(isDeleted, r, status)
    ensures !r.Reached? && deadlinePassed ==> status in {Barrier.TimedOut, Barrier.DeleteTimedOut}
  {
    if !r.Reached? {
      status := Barrier.Failed;
      if deadlinePassed {
        status := if isDeleted then Barrier.DeleteTimedOut else Barrier.TimedOut;
      }
      return;
    }
    if isDeleted { return Barrier.Gone; }
    status := Barrier.Running;
  }

  ghost predicate Enabled(log: seq<Barrier.Event>, margin: int, w: World, s: Step) {
    match s
    case Indexing(t, _) => Index.Enabled(w.index, t)
    case Handle(_, wait) =>
      w.barrier.pos < |log| && |wait.looks| == 0 && wait.owner == Barrier.ObjectOf(log[w.barrier.pos]).uid
    case Turn(k, turn) =>
      && Waiting(w, k)
      && (forall i :: 0 <= i < |w.waits[k].looks| ==>
            !Pods.Decides(w.waits[k].looks[i].turn, w.waits[k].check, margin))
      && (turn.Tick? && w.barrier.s.checkers[k].isDeleted ==> turn.desired == 0)
      && (turn.Tick? && turn.listing.Some? ==>
            Lists(w.index.pods, w.index.rs, w.bodies, w.waits[k], turn.listing.value))
    case Return(k, first, r, at, status) =>
      && Waiting(w, k)
      && Pods.Waited(first, Turns(w.waits[k].looks), margin, w.waits[k].check, r, at)
      && Sets(w.barrier.s.checkers[k].isDeleted, r, status)
  }

  ghost function Apply(log: seq<Barrier.Event>, margin: int, w: World, s: Step): World
    requires Enabled(log, margin, w, s)
  {
    match s
    case Indexing(t, body) =>
      w.(index := Index.Apply(w.index, t), bodies := if t.StorePod? then w.bodies[t.p.key := body] else w.bodies)
    case Handle(created, wait) =>
      var e := log[w.barrier.pos];
      w.(barrier := Barrier.Apply(log, w.barrier, Barrier.HandleNext(created)),
         waits := if created && Barrier.Detected(e) then w.waits[Barrier.ObjectOf(e).key := wait] else w.waits)
    case Turn(k, turn) =>
      w.(waits := w.waits[k := w.waits[k].(looks := w.waits[k].looks + [Look(turn, w.index, w.bodies)])])
    case Return(k, _, _, _, status) =>
      w.(barrier := Barrier.Apply(log, w.barrier, Barrier.Finish(k, status)))
  }

  ghost predicate IsRun(log: seq<Barrier.Event>, margin: int, w: World, steps: seq<Step>)
    decreases |steps|
  {
    |steps| > 0 ==>
      && Enabled(log, margin, w, steps[0])
      && IsRun(log, margin, Apply(log, margin, w, steps[0]), steps[1..])
  }

  ghost function After(log: seq<Barrier.Event>, margin: int, w: World, steps: seq<Step>): World
    requires IsRun(log, margin, w, steps)
    decreases |steps|
  {
    if |steps| == 0 then w else After(log, margin, Apply(log, margin, w, steps[0]), steps[1..])
  }

  /** No pod ever adopts a replica set after that replica set was found empty. */
  ghost predicate NoLateAdoption(log: seq<Barrier.Event>, margin: int, w: World, steps: seq<Step>)
    requires IsRun(log, margin, w, steps)
    decreases |steps|
  {
    |steps| > 0 ==>
      && AdoptsInTime(w, steps[0])
      && NoLateAdoption(log, margin, Apply(log, margin, w, steps[0]), steps[1..])
  }

  ghost predicate AdoptsInTime(w: World, s: Step) {
    s.Indexing? ==> forall u :: u in Index.SeenEmpty(w.index) ==> !Index.Adopts(w.index, s.s, u)
  }

  // ------------------------------------------------------- invariant

  /** The turn listed exactly the pods that an index that never forgets gives to the owner at that moment. */
  ghost predicate Truthful(wait: Wait, look: Look) {
    look.turn.Tick? && look.turn.listing.Some? ==>
      Lists(look.index.pods, look.index.seen, look.bodies, wait, look.turn.listing.value)
  }

  ghost predicate SawGoal(wait: Wait, margin: int) {
    exists i :: 0 <= i < |wait.looks| && Pods.GoalSeen(wait.looks[i].turn, wait.check, margin)
  }

  ghost predicate WaitsTruthful(w: World) {
    forall k :: k in w.waits ==> forall i :: 0 <= i < |w.waits[k].looks| ==> Truthful(w.waits[k], w.waits[k].looks[i])
  }

  ghost predicate RunningSawGoal(w: World, margin: int) {
    forall k :: k in w.barrier.s.checkers && w.barrier.s.checkers[k].status.Running? ==>
      k in w.waits && SawGoal(w.waits[k], margin)
  }

  /** A checker for a deletion waits for no pods at all, and is done only when it has seen that. */
  ghost predicate DeletionsAskForNone(w: World, margin: int) {
    forall k :: k in w.barrier.s.checkers && w.barrier.s.checkers[k].isDeleted && k in w.waits ==>
      && (forall i :: 0 <= i < |w.waits[k].looks| && w.waits[k].looks[i].turn.Tick? ==>
            w.waits[k].looks[i].turn.desired == 0)
      && (w.barrier.s.checkers[k].status.Gone? ==> SawGoal(w.waits[k], margin))
  }

  ghost predicate Inv(w: World, margin: int) {
    && Index.IndexInv(w.index) && Index.NoOrphans(w.index)
    && WaitsTruthful(w) && RunningSawGoal(w, margin) && DeletionsAskForNone(w, margin)
    && (forall k :: k in w.barrier.s.checkers && w.barrier.s.checkers[k].status.Gone? ==> k in w.waits)
    && forall k :: k in w.waits && k in w.barrier.s.checkers ==>
         w.waits[k].owner == w.barrier.s.checkers[k].target.uid
  }

  lemma ListingIsTruthful(w: World, wait: Wait, listing: seq<Pods.Pod>)
    requires Index.IndexInv(w.index) && Index.NoOrphans(w.index)
    requires Lists(w.index.pods, w.index.rs, w.bodies, wait, listing)
    ensures Lists(w.index.pods, w.index.seen, w.bodies, wait, listing)
  {
    var found :| ListsAs(w.index.pods, w.index.rs, w.bodies, wait, listing, found);
    forall p { Index.NoOrphansMeansExact(w.index, wait.kind, wait.owner, p); }
    assert ListsAs(w.index.pods, w.index.seen, w.bodies, wait, listing, found);
  }

  lemma TurnKeepsInv(log: seq<Barrier.Event>, margin: int, w: World, s: Step)
    requires Inv(w, margin) && Enabled(log, margin, w, s) && s.Turn?
    ensures Inv(Apply(log, margin, w, s), margin)
  {
    var w' := Apply(log, margin, w, s);
    var wait := w.waits[s.key];
    var look := Look(s.turn, w.index, w.bodies);
    if s.turn.Tick? && s.turn.listing.Some? {
      ListingIsTruthful(w, wait, s.turn.listing.value);
      var found :| ListsAs(w.index.pods, w.index.seen, w.bodies, wait, s.turn.listing.value, found);
      assert ListsAs(w.index.pods, w.index.seen, w.bodies, w'.waits[s.key], s.turn.listing.value, found);
    }
    forall k, i | k in w'.waits && 0 <= i < |w'.waits[k].looks| ensures Truthful(w'.waits[k], w'.waits[k].looks[i]) {
      if k == s.key && i < |wait.looks| { SameListing(wait, w'.waits[k], wait.looks[i]); }
    }
  }

  /** What a turn listed does not depend on the other turns. */
  lemma SameListing(wait: Wait, wait': Wait, look: Look)
    requires Truthful(wait, look) && wait' == wait.(looks := wait'.looks)
    ensures Truthful(wait', look)
  {
    if look.turn.Tick? && look.turn.listing.Some? {
      var found :| ListsAs(look.index.pods, look.index.seen, look.bodies, wait, look.turn.listing.value, found);
      assert ListsAs(look.index.pods, look.index.seen, look.bodies, wait', look.turn.listing.value, found);
    }
  }

  lemma StepKeepsInv(log: seq<Barrier.Event>, margin: int, w: World, s: Step)
    requires Inv(w, margin) && Enabled(log, margin, w, s) && AdoptsInTime(w, s)
    ensures Inv(Apply(log, margin, w, s), margin)
  {
    match s
    case Indexing(t, _) =>
      Index.StepKeepsIndexInv(w.index, t);
      Index.StepKeepsNoOrphans(w.index, t);
    case Turn(_, _) => TurnKeepsInv(log, margin, w, s);
    case Return(k, first, r, at, status) =>
      if r.Reached? {
        assert Pods.GoalSeen(w.waits[k].looks[at].turn, w.waits[k].check, margin);
      }
    case Handle(_, _) => HandleKeepsInv(log, margin, w, s);
  }

  lemma HandleKeepsInv(log: seq<Barrier.Event>, margin: int, w: World, s: Step)
    requires Inv(w, margin) && Enabled(log, margin, w, s) && s.Handle?
    ensures Inv(Apply(log, margin, w, s), margin)
  {
  }

  lemma {:induction false} RunKeepsInv(log: seq<Barrier.Event>, margin: int, w: World, steps: seq<Step>)
    requires Inv(w, margin) && IsRun(log, margin, w, steps) && NoLateAdoption(log, margin, w, steps)
    ensures Inv(After(log, margin, w, steps), margin)
    decreases |steps|
  {
    if |steps| > 0 {
      StepKeepsInv(log, margin, w, steps[0]);
      RunKeepsInv(log, margin, Apply(log, margin, w, steps[0]), steps[1..]);
    }
  }

  /** In every run: a deletion that counts as done saw, on a truthful listing, the goal of having no pods. */
  lemma GoneMeansNoPods(log: seq<Barrier.Event>, margin: int, steps: seq<Step>, k: string)
    requires IsRun(log, margin, CREATED, steps) && NoLateAdoption(log, margin, CREATED, steps)
    requires var c := After(log, margin, CREATED, steps).barrier.s.checkers;
      k in c && c[k].isDeleted && c[k].status.Gone?
    ensures var w := After(log, margin, CREATED, steps);
      && k in w.waits
      && exists look :: look in w.waits[k].looks && Truthful(w.waits[k], look) && look.turn.Tick?
           && look.turn.desired == 0 && Pods.GoalSeen(look.turn, w.waits[k].check, margin)
  {
    RunKeepsInv(log, margin, CREATED, steps);
    var wait := After(log, margin, CREATED, steps).waits[k];
    var i :| 0 <= i < |wait.looks| && Pods.GoalSeen(wait.looks[i].turn, wait.check, margin);
    assert wait.looks[i] in wait.looks;
  }

  // ------------------------------------------------------- the handler's part of a run

  ghost function BarrierSteps(steps: seq<Step>): seq<Barrier.Step> {
    if |steps| == 0 then []
    else
      var rest := BarrierSteps(steps[1..]);
      match steps[0]
      case Handle(created, _) => [Barrier.HandleNext(created)] + rest
      case Return(k, _, _, _, status) => [Barrier.Finish(k, status)] + rest
      case _ => rest
  }

  /** Every run is, for the handler and the checkers, one of the runs the barrier results are about. */
  lemma {:induction false} RunsTheBarrier(log: seq<Barrier.Event>, margin: int, w: World, steps: seq<Step>)
    requires IsRun(log, margin, w, steps)
    ensures Barrier.IsRun(log, w.barrier, BarrierSteps(steps))
    ensures Barrier.After(log, w.barrier, BarrierSteps(steps)) == After(log, margin, w, steps).barrier
    decreases |steps|
  {
    if |steps| > 0 {
      RunsTheBarrier(log, margin, Apply(log, margin, w, steps[0]), steps[1..]);
      if steps[0].Handle? || steps[0].Return? {
        assert BarrierSteps(steps)[1..] == BarrierSteps(steps[1..]);
      }
    }
  }

  // ------------------------------------------------------- main result

  /** At some turn of the wait the goal was seen on a truthful listing of the owner's pods. */
  ghost predicate PodsWereSeen(wait: Wait, margin: int) {
    exists look :: look in wait.looks && Truthful(wait, look) && Pods.GoalSeen(look.turn, wait.check, margin)
  }

  ghost predicate RunsTo(log: seq<Barrier.Event>, margin: int, w: World, steps: seq<Step>, w': World) {
    IsRun(log, margin, w, steps) && After(log, margin, w, steps) == w'
  }

  /** LIST at m, barrier open in y, successful count in y'; what happens in between is harmless. */
  ghost predicate Succeeds(log: seq<Barrier.Event>, batch: nat, m: nat, maxVersion: nat,
                           y: Barrier.System, y': Barrier.System)
  {
    && Barrier.WellFormed(log, batch) && batch <= m <= |log|
    && Barrier.IsMaxVersion(Barrier.Cluster(log, m).Values, maxVersion)
    && Barrier.BarrierOpen(y.s, Barrier.Cluster(log, m).Keys, maxVersion)
    && Barrier.AddsOnlyListed(log, y.pos, y'.pos, Barrier.Cluster(log, m).Keys)
    && Barrier.DeletionsCompared(log, y'.pos)
    && Barrier.CountsSucceed(y'.s.checkers, |Barrier.Cluster(log, m).Keys|)
  }

  /**
   * LIST at m; the barrier opens after `steps`; the count happens after `more`.  If pods name their
   * replica sets in time, no later event adds an unlisted key and no deletion failed to be compared,
   * success means: for every listed key the wait of its checker saw, at some turn and on exactly the
   * pods that the object now under that key owned at that moment, the goal it waits for.
   */
  lemma SuccessMeansPodsWereSeen(log: seq<Barrier.Event>, batch: nat, m: nat, maxVersion: nat, margin: int,
                                 steps: seq<Step>, w: World, more: seq<Step>, w': World)
    requires RunsTo(log, margin, CREATED, steps, w) && NoLateAdoption(log, margin, CREATED, steps)
    requires RunsTo(log, margin, w, more, w') && NoLateAdoption(log, margin, w, more)
    requires Succeeds(log, batch, m, maxVersion, w.barrier, w'.barrier)
    ensures w'.barrier.pos <= |log|
    ensures forall k :: k in Barrier.Cluster(log, m) ==>
      && k in w'.waits && PodsWereSeen(w'.waits[k], margin)
      && k in Barrier.Cluster(log, w'.barrier.pos)
      && w'.waits[k].owner == Barrier.Cluster(log, w'.barrier.pos)[k].uid
  {
    RunKeepsInv(log, margin, CREATED, steps);
    RunKeepsInv(log, margin, w, more);
    CheckersRun(log, batch, m, maxVersion, margin, steps, w, more, w');
    forall k | k in Barrier.Cluster(log, m) { GoalWasTruthful(w', margin, k); }
  }

  /** The handler's share of the result. */
  lemma CheckersRun(log: seq<Barrier.Event>, batch: nat, m: nat, maxVersion: nat, margin: int,
                    steps: seq<Step>, w: World, more: seq<Step>, w': World)
    requires RunsTo(log, margin, CREATED, steps, w) && RunsTo(log, margin, w, more, w')
    requires Succeeds(log, batch, m, maxVersion, w.barrier, w'.barrier)
    ensures Barrier.AllRunning(w'.barrier.s.checkers, Barrier.Cluster(log, m).Keys)
    ensures forall k :: k in Barrier.Cluster(log, m) ==>
      && k in Barrier.Cluster(log, w'.barrier.pos)
      && w'.barrier.s.checkers[k].target.uid == Barrier.Cluster(log, w'.barrier.pos)[k].uid
  {
    RunsTheBarrier(log, margin, CREATED, steps);
    RunsTheBarrier(log, margin, w, more);
    Barrier.SuccessSound(log, batch, m, maxVersion, BarrierSteps(steps), BarrierSteps(more));
  }

  lemma GoalWasTruthful(w: World, margin: int, k: string)
    requires Inv(w, margin) && k in w.barrier.s.checkers && w.barrier.s.checkers[k].status.Running?
    ensures k in w.waits && PodsWereSeen(w.waits[k], margin) && w.waits[k].owner == w.barrier.s.checkers[k].target.uid
  {
    var looks := w.waits[k].looks;
    var i :| 0 <= i < |looks| && Pods.GoalSeen(looks[i].turn, w.waits[k].check, margin);
    assert looks[i] in looks;
  }

  // ------------------------------------------------------- a run that succeeds

  lemma {:induction false} RunExtends(log: seq<Barrier.Event>, margin: int, w: World, steps: seq<Step>, w': World,
                                      s: Step)
    requires RunsTo(log, margin, w, steps, w') && Enabled(log, margin, w', s)
    ensures RunsTo(log, margin, w, steps + [s], Apply(log, margin, w', s))
    decreases |steps|
  {
    if |steps| == 0 {
      assert (steps + [s])[0] == s && (steps + [s])[1..] == [];
    } else {
      assert (steps + [s])[0] == steps[0] && (steps + [s])[1..] == steps[1..] + [s];
      RunExtends(log, margin, Apply(log, margin, w, steps[0]), steps[1..], w', s);
    }
  }

  const ONE_POD := Index.Pod("p", Some("u"))
  const ONE_BODY := Pods.Pod("p", "n", false, "Running", [Pods.Condition("Ready", "True")], "node")

  lemma OneReadyPod(turn: Pods.Turn)
    requires turn == Pods.Tick(1, Some([ONE_BODY]))
    ensures Pods.GoalSeen(turn, None, 0)
  {
    assert [ONE_BODY][..0] == [];
    assert ONE_BODY.conditions[0] == Pods.Condition("Ready", "True");
    assert Pods.ReadyAndUpdated(None, ONE_BODY);
    assert Pods.NumberUpdated([ONE_BODY], None) == 1;
  }

  lemma OnePodListed(index: Index.World, bodies: map<string, Pods.Pod>, wait: Wait)
    requires index.pods == map["p" := ONE_POD] && bodies == map["p" := ONE_BODY]
    requires wait.kind.OtherController? && wait.owner == "u"
    ensures Lists(index.pods, index.rs, bodies, wait, [ONE_BODY])
  {
    assert ListsAs(index.pods, index.rs, bodies, wait, [ONE_BODY], [ONE_POD]);
  }

  /** Its pod is stored and its addition handled. */
  lemma OneObjectHandled(log: seq<Barrier.Event>, wait: Wait) returns (steps: seq<Step>, w: World)
    requires log == [Barrier.Added(Barrier.OBJECT_A)] && wait == Wait(Index.OtherController, "u", None, [])
    ensures RunsTo(log, 0, CREATED, steps, w)
    ensures w.index.pods == map["p" := ONE_POD] && w.bodies == map["p" := ONE_BODY] && w.waits == map["a" := wait]
    ensures w.barrier == Barrier.System(
      1, Barrier.State({"a"}, 5, map["a" := Barrier.Checker(Barrier.OBJECT_A, false, Barrier.Unknown)]))
  {
    var s1, s2 := Indexing(Index.StorePod(ONE_POD), ONE_BODY), Handle(true, wait);
    RunExtends(log, 0, CREATED, [], CREATED, s1);
    var w1 := Apply(log, 0, CREATED, s1);
    RunExtends(log, 0, CREATED, [] + [s1], w1, s2);
    steps, w := [] + [s1] + [s2], Apply(log, 0, w1, s2);
  }

  /** One object with one ready pod: the steps exist, and gathering succeeds. */
  lemma SuccessIsPossible() returns (log: seq<Barrier.Event>, steps: seq<Step>, w: World)
    ensures RunsTo(log, 0, CREATED, steps, w) && Succeeds(log, 1, 1, 5, w.barrier, w.barrier)
    ensures "a" in Barrier.Cluster(log, 1)
  {
    log := [Barrier.Added(Barrier.OBJECT_A)];
    var wait := Wait(Index.OtherController, "u", None, []);
    var before, w2 := OneObjectHandled(log, wait);
    var turn := Pods.Tick(1, Some([ONE_BODY]));
    var s3, s4 := Turn("a", turn), Return("a", Some([]), Pods.Reached, 0, Barrier.Running);
    OnePodListed(w2.index, w2.bodies, wait);
    RunExtends(log, 0, CREATED, before, w2, s3);
    var w3 := Apply(log, 0, w2, s3);
    OneReadyPod(turn);
    assert Turns(w3.waits["a"].looks) == [turn];
    RunExtends(log, 0, CREATED, before + [s3], w3, s4);
    w := Apply(log, 0, w3, s4);
    steps := before + [s3] + [s4];
    OneObjectSucceeds(log, w.barrier);
  }

  lemma OneObjectSucceeds(log: seq<Barrier.Event>, y: Barrier.System)
    requires log == [Barrier.Added(Barrier.OBJECT_A)]
    requires y.pos == 1 && y.s.objectKeys == {"a"} && y.s.opResourceVersion == 5
    requires y.s.checkers == map["a" := Barrier.Checker(Barrier.OBJECT_A, false, Barrier.Running)]
    ensures Succeeds(log, 1, 1, 5, y, y) && "a" in Barrier.Cluster(log, 1)
  {
    assert Barrier.Cluster(log, 0) == map[];
    assert Barrier.Cluster(log, 1) == map["a" := Barrier.OBJECT_A];
    assert Barrier.ApplicableAt(log, 0);
    var c := Barrier.Checker(Barrier.OBJECT_A, false, Barrier.Running);
    Barrier.OneRunningCounts(c, Barrier.Cluster(log, 1), Barrier.OBJECT_A);
  }
}
