/** Pod classification, start-up counters, the diff of two listings, and the loop that waits for pods. */
module Pods {
  import opened Common

  datatype Condition = Condition(kind: string, status: string)

  datatype Pod = Pod(name: string, namespace: string, deleting: bool, phase: string, conditions: seq<Condition>,
                     nodeName: string)

  datatype Status =
    | Unknown | Terminating | RunningAndReady | RunningButNotReady | PendingScheduled | PendingNotScheduled | Inactive

  predicate IsReady(conditions: seq<Condition>) {
    Condition("Ready", "True") in conditions
  }

  function PodStatus(p: Pod): Status {
    if p.deleting then Terminating
    else if p.phase == "Running" then (if IsReady(p.conditions) then RunningAndReady else RunningButNotReady)
    else if p.phase == "Pending" then (if p.nodeName == "" then PendingNotScheduled else PendingScheduled)
    else if p.phase == "Succeeded" || p.phase == "Failed" then Inactive
    else Unknown
  }

  /** When a pod is reported in which state. */
  lemma StatusMeans(p: Pod)
    ensures PodStatus(p) == Terminating <==> p.deleting
    ensures PodStatus(p) == RunningAndReady <==>
      && !p.deleting && p.phase == "Running"
      && exists i :: 0 <= i < |p.conditions| && p.conditions[i].kind == "Ready" && p.conditions[i].status == "True"
    ensures PodStatus(p) in {RunningAndReady, RunningButNotReady} <==> !p.deleting && p.phase == "Running"
    ensures PodStatus(p) == PendingScheduled <==> !p.deleting && p.phase == "Pending" && p.nodeName != ""
    ensures PodStatus(p) == PendingNotScheduled <==> !p.deleting && p.phase == "Pending" && p.nodeName == ""
    ensures PodStatus(p) == Inactive <==> !p.deleting && (p.phase == "Succeeded" || p.phase == "Failed")
  {
    if IsReady(p.conditions) {
      var i :| 0 <= i < |p.conditions| && p.conditions[i] == Condition("Ready", "True");
    }
    if i :| 0 <= i < |p.conditions| && p.conditions[i].kind == "Ready" && p.conditions[i].status == "True" {
      assert p.conditions[i] == Condition("Ready", "True");
    }
  }

  /** None: every pod counts as updated; otherwise the function returns an error for stale pods. */
  type UpdateCheck = Option<Pod -> Option<string>>

  predicate IsUpdated(check: UpdateCheck, p: Pod) {
    check.None? || check.value(p).None?
  }

  predicate ReadyAndUpdated(check: UpdateCheck, p: Pod) {
    PodStatus(p) == RunningAndReady && IsUpdated(check, p)
  }

  // ------------------------------------------------------- counting

  ghost function NumberWith(pods: seq<Pod>, st: Status): nat {
    if pods == [] then 0
    else NumberWith(pods[..|pods| - 1], st) + (if PodStatus(pods[|pods| - 1]) == st then 1 else 0)
  }

  ghost function NumberUpdated(pods: seq<Pod>, check: UpdateCheck): nat {
    if pods == [] then 0
    else NumberUpdated(pods[..|pods| - 1], check) + (if ReadyAndUpdated(check, pods[|pods| - 1]) then 1 else 0)
  }

  /** Pods that are neither inactive nor ready-and-updated. */
  ghost function NumberUnsettled(pods: seq<Pod>, check: UpdateCheck): nat {
    if pods == [] then 0
    else
      var p := pods[|pods| - 1];
      NumberUnsettled(pods[..|pods| - 1], check)
      + (if PodStatus(p) != Inactive && !ReadyAndUpdated(check, p) then 1 else 0)
  }

  /** Live pods whose phase is none of the five known ones: no counter sees them. */
  ghost function NumberUncounted(pods: seq<Pod>): nat {
    if pods == [] then 0
    else
      var p := pods[|pods| - 1];
      NumberUncounted(pods[..|pods| - 1]) + (if PodStatus(p) == Unknown && p.phase != "Unknown" then 1 else 0)
  }

  ghost function NumberScheduled(pods: seq<Pod>): nat {
    if pods == [] then 0
    else
      var p := pods[|pods| - 1];
      NumberScheduled(pods[..|pods| - 1]) + (if !p.deleting && p.nodeName != "" then 1 else 0)
  }

  /** Error reported for the last ready pod that is not updated. */
  ghost function LastUpdateError(pods: seq<Pod>, check: UpdateCheck): Option<string> {
    if pods == [] || check.None? then None
    else
      var p := pods[|pods| - 1];
      if PodStatus(p) == RunningAndReady && check.value(p).Some? then check.value(p)
      else LastUpdateError(pods[..|pods| - 1], check)
  }

  datatype StartupStatus = StartupStatus(
    expected: int, terminating: int, running: int, scheduled: int, runningButNotReady: int,
    waiting: int, pending: int, unknown: int, inactive: int, created: int, runningUpdated: int,
    lastIsPodUpdatedError: Option<string>)

  /** Counters maintained by the second classification against the first one. */
  ghost predicate Agrees(pods: seq<Pod>, check: UpdateCheck, s: StartupStatus) {
    && s.terminating == NumberWith(pods, Terminating)
    && s.running == NumberWith(pods, RunningAndReady)
    && s.runningButNotReady == NumberWith(pods, RunningButNotReady)
    && s.waiting == NumberWith(pods, PendingNotScheduled)
    && s.pending == NumberWith(pods, PendingScheduled)
    && s.inactive == NumberWith(pods, Inactive)
    && s.unknown == NumberWith(pods, Unknown) - NumberUncounted(pods)
    && s.created == |pods| - NumberWith(pods, Terminating)
    && s.scheduled == NumberScheduled(pods)
    && s.runningUpdated == NumberUpdated(pods, check)
    && s.lastIsPodUpdatedError == LastUpdateError(pods, check)
  }

  method ComputePodsStartupStatus(pods: seq<Pod>, expected: int, isPodUpdated: UpdateCheck) returns (s: StartupStatus)
    ensures s.expected == expected
    ensures Agrees(pods, isPodUpdated, s)
  {
    s := StartupStatus(expected, 0, 0, 0, 0, 0, 0, 0, 0, 0, 0, None);
    for i := 0 to |pods|
      invariant s.expected == expected
      invariant Agrees(pods[..i], isPodUpdated, s)
    {
      assert pods[..i + 1] == pods[..i] + [pods[i]];
      s := CountPod(s, pods[i], isPodUpdated, pods[..i]);
    }
    assert pods[..|pods|] == pods;
  }

  /** The loop body, for one pod; `counted` are the pods before it. */
  method CountPod(s0: StartupStatus, p: Pod, isPodUpdated: UpdateCheck, ghost counted: seq<Pod>)
    returns (s: StartupStatus)
    requires Agrees(counted, isPodUpdated, s0)
    ensures s.expected == s0.expected && Agrees(counted + [p], isPodUpdated, s)
  {
    s := s0;
    ghost var pods := counted + [p];
    assert pods[..|pods| - 1] == counted && pods[|pods| - 1] == p;
    if p.deleting {
      s := s.(terminating := s.terminating + 1);
      return;
    }
    s := s.(created := s.created + 1);
    if p.phase == "Running" {
      var ready := FindReady(p.conditions);
      if ready {
        s := s.(running := s.running + 1);
        if isPodUpdated.None? {
          s := s.(runningUpdated := s.runningUpdated + 1);
        } else {
          var err := isPodUpdated.value(p);
          if err.Some? {
            s := s.(lastIsPodUpdatedError := err);
          } else {
            s := s.(runningUpdated := s.runningUpdated + 1);
          }
        }
      } else {
        s := s.(runningButNotReady := s.runningButNotReady + 1);
      }
    } else if p.phase == "Pending" {
      if p.nodeName == "" {
        s := s.(waiting := s.waiting + 1);
      } else {
        s := s.(pending := s.pending + 1);
      }
    } else if p.phase == "Succeeded" || p.phase == "Failed" {
      s := s.(inactive := s.inactive + 1);
    } else if p.phase == "Unknown" {
      s := s.(unknown := s.unknown + 1);
    }
    if p.nodeName != "" {
      s := s.(scheduled := s.scheduled + 1);
    }
  }

  /** Looks for a condition of type Ready with status True. */
  method FindReady(conditions: seq<Condition>) returns (ready: bool)
    ensures ready <==>
      exists i :: 0 <= i < |conditions| && conditions[i].kind == "Ready" && conditions[i].status == "True"
    ensures ready <==> IsReady(conditions)
  {
    ready := false;
    for i := 0 to |conditions|
      invariant forall k :: 0 <= k < i ==> !(conditions[k].kind == "Ready" && conditions[k].status == "True")
    {
      if conditions[i].kind == "Ready" && conditions[i].status == "True" {
        ready := true;
        break;
      }
    }
  }

  lemma {:induction false} CountsPartition(pods: seq<Pod>, check: UpdateCheck)
    ensures NumberUpdated(pods, check) <= NumberWith(pods, RunningAndReady)
    ensures NumberUnsettled(pods, check) + NumberUpdated(pods, check) + NumberWith(pods, Inactive) == |pods|
    ensures NumberWith(pods, RunningAndReady) + NumberWith(pods, Inactive) <= |pods|
    ensures NumberUnsettled(pods, check) == 0 <==>
      forall p :: p in pods ==> PodStatus(p) == Inactive || ReadyAndUpdated(check, p)
  {
    if pods != [] {
      var n := |pods| - 1;
      CountsPartition(pods[..n], check);
      assert pods == pods[..n] + [pods[n]];
    }
  }

  // ------------------------------------------------------- the two exits

  predicate StrictExit(n: int, s: StartupStatus, desired: int) {
    n == s.running + s.inactive && s.running == s.runningUpdated && s.runningUpdated == desired
  }

  predicate MarginExit(n: int, s: StartupStatus, desired: int, margin: int) {
    margin > 0 && s.runningUpdated >= desired - margin && n - s.inactive <= desired && s.inactive <= margin
  }

  /** Live, running, with a true Ready condition, and up to date. */
  ghost predicate Serves(check: UpdateCheck, p: Pod) {
    && !p.deleting && p.phase == "Running"
    && (exists i :: 0 <= i < |p.conditions| && p.conditions[i].kind == "Ready" && p.conditions[i].status == "True")
    && (check.Some? ==> check.value(p) == None)
  }

  ghost function ServingAt(pods: seq<Pod>, check: UpdateCheck): set<int> {
    set i | 0 <= i < |pods| && Serves(check, pods[i])
  }

  lemma ServingAtStep(pods: seq<Pod>, check: UpdateCheck)
    requires pods != []
    ensures var n := |pods| - 1;
      |ServingAt(pods, check)| == |ServingAt(pods[..n], check)| + (if Serves(check, pods[n]) then 1 else 0)
  {
    var n := |pods| - 1;
    assert ServingAt(pods, check) == ServingAt(pods[..n], check) + (if Serves(check, pods[n]) then {n} else {});
  }

  lemma {:induction false} UpdatedAreServing(pods: seq<Pod>, check: UpdateCheck)
    ensures NumberUpdated(pods, check) == |ServingAt(pods, check)|
  {
    if pods != [] {
      UpdatedAreServing(pods[..|pods| - 1], check);
      ServingIsReady(check, pods[|pods| - 1]);
      ServingAtStep(pods, check);
    }
  }

  lemma ServingIsReady(check: UpdateCheck, p: Pod)
    ensures Serves(check, p) <==> ReadyAndUpdated(check, p)
  {
    if IsReady(p.conditions) {
      var i :| 0 <= i < |p.conditions| && p.conditions[i] == Condition("Ready", "True");
      assert p.conditions[i].kind == "Ready" && p.conditions[i].status == "True";
    }
    if i :| 0 <= i < |p.conditions| && p.conditions[i].kind == "Ready" && p.conditions[i].status == "True" {
      assert p.conditions[i] == Condition("Ready", "True");
    }
  }

  /** The settled listing, on the pods themselves: as many serve as desired, and the others have finished. */
  lemma SettledMeans(pods: seq<Pod>, check: UpdateCheck, desired: int)
    ensures Settled(pods, check, desired) <==>
      && |ServingAt(pods, check)| == desired
      && forall i :: 0 <= i < |pods| ==>
           Serves(check, pods[i]) || (!pods[i].deleting && (pods[i].phase == "Succeeded" || pods[i].phase == "Failed"))
  {
    UpdatedAreServing(pods, check);
    forall i | 0 <= i < |pods| ensures Serves(check, pods[i]) <==> ReadyAndUpdated(check, pods[i]) {
      ServingIsReady(check, pods[i]);
    }
  }

  /** Exactly `desired` pods are ready and updated, and every other pod is inactive. */
  ghost predicate Settled(pods: seq<Pod>, check: UpdateCheck, desired: int) {
    && NumberUpdated(pods, check) == desired
    && forall p :: p in pods ==> PodStatus(p) == Inactive || ReadyAndUpdated(check, p)
  }

  lemma StrictExitMeansSettled(pods: seq<Pod>, check: UpdateCheck, s: StartupStatus, desired: int)
    requires Agrees(pods, check, s)
    ensures StrictExit(|pods|, s, desired) <==> Settled(pods, check, desired)
  {
    CountsPartition(pods, check);
  }

  lemma MarginExitMeans(pods: seq<Pod>, check: UpdateCheck, s: StartupStatus, desired: int, margin: int)
    requires Agrees(pods, check, s) && MarginExit(|pods|, s, desired, margin)
    ensures NumberUnsettled(pods, check) <= margin
    ensures desired - margin <= NumberUpdated(pods, check) <= desired
    ensures |pods| <= desired + margin
  {
    CountsPartition(pods, check);
  }

  /** The pods of a status report: one entry per pod, and the ones that are not ready. */
  datatype PodInfo = PodInfo(name: string, hostname: string, phase: string, status: Status, namespace: string)

  function InfoOf(p: Pod): PodInfo {
    PodInfo(p.name, p.nodeName, p.phase, PodStatus(p), p.namespace)
  }

  ghost function NotReadyInfos(pods: seq<Pod>): seq<PodInfo> {
    if pods == [] then []
    else
      var p := pods[|pods| - 1];
      NotReadyInfos(pods[..|pods| - 1]) + (if PodStatus(p) != RunningAndReady then [InfoOf(p)] else [])
  }

  method NotRunningAndReady(pods: seq<Pod>) returns (r: seq<PodInfo>)
    ensures r == NotReadyInfos(pods)
  {
    var infos := seq(|pods|, i requires 0 <= i < |pods| => InfoOf(pods[i]));
    r := [];
    for i := 0 to |infos|
      invariant r == NotReadyInfos(pods[..i])
    {
      assert pods[..i + 1][..i] == pods[..i];
      if infos[i].status != RunningAndReady {
        r := r + [infos[i]];
      }
    }
    assert pods[..|pods|] == pods;
  }

  ghost predicate Describes(info: PodInfo, p: Pod) {
    && info.name == p.name && info.namespace == p.namespace
    && info.hostname == p.nodeName && info.phase == p.phase && info.status == PodStatus(p)
  }

  /** The report describes, in listing order, every pod that is not both running and ready. */
  lemma {:induction false} NotReadyInOrder(pods: seq<Pod>) returns (at: seq<nat>)
    ensures forall j, k :: 0 <= j < k < |at| ==> at[j] < at[k]
    ensures forall j :: 0 <= j < |at| ==> at[j] < |pods|
    ensures forall i: nat :: i in at <==> i < |pods| && !Serves(None, pods[i])
    ensures |NotReadyInfos(pods)| == |at|
    ensures forall j :: 0 <= j < |at| ==> Describes(NotReadyInfos(pods)[j], pods[at[j]])
  {
    at := [];
    if pods != [] {
      var n := |pods| - 1;
      at := NotReadyInOrder(pods[..n]);
      ServingIsReady(None, pods[n]);
      if PodStatus(pods[n]) != RunningAndReady { at := at + [n]; }
    }
  }

  // ------------------------------------------------------- the wait loop

  /** What one turn of the select sees: a tick with the answers of its two calls, or the end of the context. */
  datatype Turn = Tick(desired: int, listing: Option<seq<Pod>>) | ContextDone(deadlineExceeded: bool)

  datatype WaitResult = Reached | ListFailed | Ended(notReady: seq<PodInfo>, deadlineExceeded: bool) | StillWaiting

  /** Pods known before turn i. */
  ghost function KnownBefore(first: seq<Pod>, turns: seq<Turn>, i: nat): seq<Pod>
    requires i <= |turns|
  {
    if i > 0 && turns[i - 1].Tick? && turns[i - 1].listing.Some? then turns[i - 1].listing.value else first
  }

  ghost predicate WithinMargin(pods: seq<Pod>, check: UpdateCheck, desired: int, margin: int) {
    && margin > 0
    && NumberUnsettled(pods, check) <= desired - NumberUpdated(pods, check) <= margin
    && NumberWith(pods, Inactive) <= margin
  }

  /** The cluster condition that ends the wait successfully. */
  ghost predicate GoalSeen(t: Turn, check: UpdateCheck, margin: int) {
    && t.Tick? && t.listing.Some?
    && (Settled(t.listing.value, check, t.desired) || WithinMargin(t.listing.value, check, t.desired, margin))
  }

  ghost predicate Decides(t: Turn, check: UpdateCheck, margin: int) {
    t.ContextDone? || t.listing.None? || GoalSeen(t, check, margin)
  }

  lemma ExitsSeeGoal(pods: seq<Pod>, check: UpdateCheck, s: StartupStatus, desired: int, margin: int)
    requires Agrees(pods, check, s)
    ensures StrictExit(|pods|, s, desired) || MarginExit(|pods|, s, desired, margin)
      <==> GoalSeen(Tick(desired, Some(pods)), check, margin)
  {
    CountsPartition(pods, check);
    StrictExitMeansSettled(pods, check, s, desired);
  }

  /** The range documented for the error margin. */
  ghost predicate InRange(pods: seq<Pod>, check: UpdateCheck, desired: int, margin: int) {
    desired - margin <= NumberUpdated(pods, check) <= desired
  }

  /**
   * With an error margin, the wait ends on a listing exactly when the ready and updated pods are in
   * the documented range and moreover all others are inactive, or at most the margin is inactive and
   * the unsettled pods fit into what is missing.
   */
  lemma ExitIffInRangeAndBounded(pods: seq<Pod>, check: UpdateCheck, s: StartupStatus, desired: int, margin: int)
    requires Agrees(pods, check, s) && margin > 0
    ensures StrictExit(|pods|, s, desired) || MarginExit(|pods|, s, desired, margin)
      <==> && InRange(pods, check, desired, margin)
           && (|| Settled(pods, check, desired)
               || (&& NumberWith(pods, Inactive) <= margin
                   && NumberUnsettled(pods, check) <= desired - NumberUpdated(pods, check)))
  {
    ExitsSeeGoal(pods, check, s, desired, margin);
  }

  /** Three pods desired, a margin of one; two are ready, two pending: in range, and the wait goes on. */
  lemma RangeIsNotEnough() returns (pods: seq<Pod>, turn: Turn)
    ensures turn == Tick(3, Some(pods)) && InRange(pods, None, 3, 1) && NumberWith(pods, Inactive) == 0
    ensures !Decides(turn, None, 1)
  {
    var ready := [Condition("Ready", "True")];
    var r1, r2 := Pod("r1", "n", false, "Running", ready, "node"), Pod("r2", "n", false, "Running", ready, "node");
    var p1, p2 := Pod("p1", "n", false, "Pending", [], ""), Pod("p2", "n", false, "Pending", [], "");
    assert ready[0] == Condition("Ready", "True");
    CountOneMore([], r1);
    CountOneMore([] + [r1], r2);
    CountOneMore([] + [r1] + [r2], p1);
    CountOneMore([] + [r1] + [r2] + [p1], p2);
    pods := [] + [r1] + [r2] + [p1] + [p2];
    turn := Tick(3, Some(pods));
    CountsPartition(pods, None);
  }

  lemma CountOneMore(pods: seq<Pod>, p: Pod)
    ensures NumberUpdated(pods + [p], None)
         == NumberUpdated(pods, None) + (if PodStatus(p) == RunningAndReady then 1 else 0)
    ensures NumberWith(pods + [p], Inactive) == NumberWith(pods, Inactive) + (if PodStatus(p) == Inactive then 1 else 0)
  {
    assert (pods + [p])[..|pods|] == pods;
  }

  /**
   * The outcome of a wait: that of the first turn that decides.  The goal, when a turn shows it; a
   * list failure, when a listing fails; at the end of the context, the pods last seen not ready.
   */
  ghost predicate Waited(first: Option<seq<Pod>>, turns: seq<Turn>, margin: int, check: UpdateCheck,
                         r: WaitResult, at: nat)
  {
    if first.None? then r == ListFailed
    else
      && at <= |turns|
      && (forall i :: 0 <= i < at ==> !Decides(turns[i], check, margin))
      && (at == |turns| <==> r.StillWaiting?)
      && (r.Reached? ==> GoalSeen(turns[at], check, margin))
      && (r.ListFailed? ==> turns[at].Tick? && turns[at].listing.None?)
      && (r.Ended? ==> turns[at] == ContextDone(r.deadlineExceeded)
                       && r.notReady == NotReadyInfos(KnownBefore(first.value, turns, at)))
  }

  /** Stops at the first deciding turn and reports what that turn showed. */
  method WaitForPods(first: Option<seq<Pod>>, turns: seq<Turn>, margin: int, isPodUpdated: UpdateCheck)
    returns (r: WaitResult, at: nat)
    ensures Waited(first, turns, margin, isPodUpdated, r, at)
  {
    at := 0;
    if first.None? { return ListFailed, 0; }
    var oldPods := first.value;
    while at < |turns|
      invariant at <= |turns|
      invariant oldPods == KnownBefore(first.value, turns, at)
      invariant forall i :: 0 <= i < at ==> !Decides(turns[i], isPodUpdated, margin)
    {
      match turns[at]
      case ContextDone(deadline) =>
        var infos := NotRunningAndReady(oldPods);
        return Ended(infos, deadline), at;
      case Tick(desired, listing) =>
        if listing.None? { return ListFailed, at; }
        var pods := listing.value;
        var s := ComputePodsStartupStatus(pods, desired, isPodUpdated);
        ExitsSeeGoal(pods, isPodUpdated, s, desired, margin);
        if StrictExit(|pods|, s, desired) { return Reached, at; }
        if MarginExit(|pods|, s, desired, margin) { return Reached, at; }
        oldPods := pods;
        at := at + 1;
    }
    return StillWaiting, at;
  }

  // ------------------------------------------------------- diff of two listings

  const NON_EXIST := "NonExist"

  datatype DiffInfo = DiffInfo(oldHostname: string, oldPhase: string, hostname: string, phase: string)

  /** The last pod of that name in a listing. */
  ghost function LastNamed(pods: seq<Pod>, name: string): Option<Pod> {
    if pods == [] then None
    else if pods[|pods| - 1].name == name then Some(pods[|pods| - 1])
    else LastNamed(pods[..|pods| - 1], name)
  }

  /** By position: no later pod of the listing has the name. */
  lemma {:induction false} LastNamedMeans(pods: seq<Pod>, name: string, p: Pod)
    ensures LastNamed(pods, name) == Some(p) <==>
      exists i :: 0 <= i < |pods| && pods[i] == p && p.name == name && forall j :: i < j < |pods| ==>
        pods[j].name != name
  {
    if pods != [] {
      var n := |pods| - 1;
      LastNamedMeans(pods[..n], name, p);
      assert forall i :: 0 <= i < n ==> pods[..n][i] == pods[i];
      if pods[n].name == name { assert pods[n] == pods[|pods| - 1]; }
    }
  }

  function HostOf(p: Option<Pod>): string { if p.Some? then p.value.nodeName else NON_EXIST }
  function PhaseOf(p: Option<Pod>): string { if p.Some? then p.value.phase else NON_EXIST }

  function InfoFrom(o: Option<Pod>, c: Option<Pod>): DiffInfo {
    DiffInfo(HostOf(o), PhaseOf(o), HostOf(c), PhaseOf(c))
  }

  ghost predicate IsDiff(before: seq<Pod>, cur: seq<Pod>, diff: map<string, DiffInfo>) {
    && (forall n :: n in diff <==> LastNamed(before, n).Some? || LastNamed(cur, n).Some?)
    && (forall n :: n in diff ==> diff[n] == InfoFrom(LastNamed(before, n), LastNamed(cur, n)))
  }

  method DiffPods(oldPods: seq<Pod>, curPods: seq<Pod>) returns (diff: map<string, DiffInfo>)
    ensures IsDiff(oldPods, curPods, diff)
  {
    diff := map[];
    for i := 0 to |curPods|
      invariant IsDiff([], curPods[..i], diff)
    {
      var pod := curPods[i];
      assert curPods[..i + 1][..i] == curPods[..i];
      diff := diff[pod.name := DiffInfo(NON_EXIST, NON_EXIST, pod.nodeName, pod.phase)];
    }
    assert curPods[..|curPods|] == curPods;
    for i := 0 to |oldPods|
      invariant IsDiff(oldPods[..i], curPods, diff)
    {
      var pod := oldPods[i];
      assert oldPods[..i + 1][..i] == oldPods[..i];
      if pod.name in diff {
        diff := diff[pod.name := diff[pod.name].(oldHostname := pod.nodeName, oldPhase := pod.phase)];
      } else {
        diff := diff[pod.name := DiffInfo(pod.nodeName, pod.phase, NON_EXIST, NON_EXIST)];
      }
    }
    assert oldPods[..|oldPods|] == oldPods;
  }

  ghost function DeletedNames(diff: map<string, DiffInfo>): set<string> {
    set n | n in diff && diff[n].hostname == NON_EXIST
  }

  ghost function AddedNames(diff: map<string, DiffInfo>): set<string> {
    set n | n in diff && diff[n].oldHostname == NON_EXIST
  }

  method DeletedPods(diff: map<string, DiffInfo>) returns (names: seq<string>)
    ensures Distinct(names) && forall n :: n in names <==> n in DeletedNames(diff)
  {
    names := [];
    var left := diff.Keys;
    while left != {}
      invariant left <= diff.Keys && Distinct(names)
      invariant forall n :: n in names <==> n in DeletedNames(diff) && n !in left
      decreases left
    {
      var n :| n in left;
      left := left - {n};
      if diff[n].hostname == NON_EXIST {
        assert n !in names;
        names := names + [n];
      }
    }
  }

  method AddedPods(diff: map<string, DiffInfo>) returns (names: seq<string>)
    ensures Distinct(names) && forall n :: n in names <==> n in AddedNames(diff)
  {
    names := [];
    var left := diff.Keys;
    while left != {}
      invariant left <= diff.Keys && Distinct(names)
      invariant forall n :: n in names <==> n in AddedNames(diff) && n !in left
      decreases left
    {
      var n :| n in left;
      left := left - {n};
      if diff[n].oldHostname == NON_EXIST {
        assert n !in names;
        names := names + [n];
      }
    }
  }

  ghost predicate Listed(pods: seq<Pod>, name: string) {
    exists i :: 0 <= i < |pods| && pods[i].name == name
  }

  lemma {:induction false} LastNamedIsListed(pods: seq<Pod>, name: string)
    ensures LastNamed(pods, name).Some? <==> Listed(pods, name)
  {
    if pods != [] {
      var n := |pods| - 1;
      LastNamedIsListed(pods[..n], name);
      if Listed(pods, name) && pods[n].name != name {
        var i :| 0 <= i < |pods| && pods[i].name == name;
        assert pods[..n][i].name == name;
      }
      if Listed(pods[..n], name) {
        var i :| 0 <= i < n && pods[..n][i].name == name;
        assert pods[i].name == name;
      }
    }
  }

  ghost predicate Present(pods: seq<Pod>, namespace: string, name: string) {
    exists i :: 0 <= i < |pods| && pods[i].namespace == namespace && pods[i].name == name
  }

  /** Some pod of that name, in some namespace, is in one listing and not in the other. */
  ghost predicate Gone(from: seq<Pod>, to: seq<Pod>, name: string) {
    exists namespace :: Present(from, namespace, name) && !Present(to, namespace, name)
  }

  /** For names still listed, the host marker says whether a pod of that name is gone. */
  ghost predicate MarkersTell(from: seq<Pod>, to: seq<Pod>) {
    forall n :: Listed(to, n) ==> (HostOf(LastNamed(to, n)) == NON_EXIST <==> Gone(from, to, n))
  }

  lemma ListedIsPresentSomewhere(pods: seq<Pod>, name: string)
    ensures Listed(pods, name) <==> exists namespace :: Present(pods, namespace, name)
  {
    if Listed(pods, name) {
      var i :| 0 <= i < |pods| && pods[i].name == name;
      assert Present(pods, pods[i].namespace, name);
    }
  }

  lemma GoneIfUnlisted(from: seq<Pod>, to: seq<Pod>, name: string)
    ensures !Listed(to, name) ==> (Gone(from, to, name) <==> Listed(from, name))
    ensures Gone(from, to, name) ==> Listed(from, name)
  {
    ListedIsPresentSomewhere(from, name);
    ListedIsPresentSomewhere(to, name);
  }

  /**
   * Pods are identified by namespace and name, the diff by name alone.  The deleted names are the
   * names of the pods that disappeared if and only if the host marker tells for every name still
   * listed; likewise for the added names.
   */
  lemma DeletedAndAddedExactIff(oldPods: seq<Pod>, curPods: seq<Pod>, diff: map<string, DiffInfo>)
    requires IsDiff(oldPods, curPods, diff)
    ensures (forall n :: n in DeletedNames(diff) <==> Gone(oldPods, curPods, n)) <==> MarkersTell(oldPods, curPods)
    ensures (forall n :: n in AddedNames(diff) <==> Gone(curPods, oldPods, n)) <==> MarkersTell(curPods, oldPods)
  {
    forall n
      ensures n in DeletedNames(diff) <==>
        if Listed(curPods, n) then HostOf(LastNamed(curPods, n)) == NON_EXIST else Gone(oldPods, curPods, n)
      ensures n in AddedNames(diff) <==>
        if Listed(oldPods, n) then HostOf(LastNamed(oldPods, n)) == NON_EXIST else Gone(curPods, oldPods, n)
    {
      LastNamedIsListed(oldPods, n);
      LastNamedIsListed(curPods, n);
      GoneIfUnlisted(oldPods, curPods, n);
      GoneIfUnlisted(curPods, oldPods, n);
    }
  }

  /** No pod of `from` is missing from `to` while a pod of the same name in another namespace stays. */
  ghost predicate NoNamesakeStays(from: seq<Pod>, to: seq<Pod>) {
    forall i :: 0 <= i < |from| && Listed(to, from[i].name) ==> Present(to, from[i].namespace, from[i].name)
  }

  /** No node is named like the marker, which Kubernetes node names cannot be. */
  ghost predicate RealHosts(pods: seq<Pod>) {
    forall i :: 0 <= i < |pods| ==> pods[i].nodeName != NON_EXIST
  }

  /** On real nodes the condition is about names alone: no name shared across namespaces hides a change. */
  lemma OnRealNodesNamesakesDecide(from: seq<Pod>, to: seq<Pod>)
    requires RealHosts(to)
    ensures MarkersTell(from, to) <==> NoNamesakeStays(from, to)
  {
    forall n | Listed(to, n) ensures HostOf(LastNamed(to, n)) != NON_EXIST { LastNamedMember(to, n); }
    assert MarkersTell(from, to) <==> forall n :: Listed(to, n) ==> !Gone(from, to, n);
    if NoNamesakeStays(from, to) {
      forall n, namespace | Listed(to, n) && Present(from, namespace, n) ensures Present(to, namespace, n) {
        var i :| 0 <= i < |from| && from[i].namespace == namespace && from[i].name == n;
      }
    } else {
      var i :| 0 <= i < |from| && Listed(to, from[i].name) && !Present(to, from[i].namespace, from[i].name);
      assert Present(from, from[i].namespace, from[i].name);
      assert Gone(from, to, from[i].name);
    }
  }

  lemma {:induction false} LastNamedMember(pods: seq<Pod>, name: string)
    requires Listed(pods, name) && RealHosts(pods)
    ensures HostOf(LastNamed(pods, name)) != NON_EXIST
  {
    var n := |pods| - 1;
    if pods[n].name != name {
      var i :| 0 <= i < |pods| && pods[i].name == name;
      assert pods[..n][i].name == name;
      LastNamedMember(pods[..n], name);
    }
  }

  /** A pod disappears from one namespace, its namesake stays in another, and the diff reports nothing. */
  lemma NamesakeHidesDeletion() returns (oldPods: seq<Pod>, curPods: seq<Pod>)
    ensures RealHosts(oldPods) && RealHosts(curPods)
    ensures Gone(oldPods, curPods, "web-0")
    ensures forall diff :: IsDiff(oldPods, curPods, diff) ==> "web-0" !in DeletedNames(diff)
  {
    var a := Pod("web-0", "n1", false, "Running", [], "node-1");
    var b := Pod("web-0", "n2", false, "Running", [], "node-2");
    oldPods, curPods := [a, b], [b];
    assert oldPods[0].namespace == "n1";
    assert Present(oldPods, "n1", "web-0") && !Present(curPods, "n1", "web-0");
    assert LastNamed(curPods, "web-0") == Some(b);
  }
}
