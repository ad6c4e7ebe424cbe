/**
 * The chaos monkey's node killer: how nodes are picked (in place, over the backing
 * array of the node list), and what the event log shows over any sequence of rounds
 * and start/stop pairs with any interleaving of the per-node goroutines.
 */
module NodeKiller {
  import opened Common

  // ------------------------------------------------------- picking nodes

  predicate IsEligible(node: string, prometheus: set<string>, killed: set<string>) {
    node !in prometheus && node !in killed
  }

  ghost function EligibleOf(nodes: seq<string>, prometheus: set<string>, killed: set<string>): seq<string> {
    if nodes == [] then []
    else
      var rest := EligibleOf(nodes[..|nodes| - 1], prometheus, killed);
      if IsEligible(nodes[|nodes| - 1], prometheus, killed) then rest + [nodes[|nodes| - 1]] else rest
  }

  /** math.Ceil over exact reals. */
  function Ceil(x: real): int { -((-x).Floor) }

  function NumberToFail(rate: real, n: nat): int { Ceil(rate * n as real) }

  /** Filters while iterating over the very slots being overwritten. */
  method FilterInPlace(nodes: array<string>, prometheus: set<string>, killed: set<string>) returns (n: nat)
    modifies nodes
    ensures n <= nodes.Length
    ensures nodes[..n] == EligibleOf(old(nodes[..]), prometheus, killed)
  {
    ghost var all := nodes[..];
    n := 0;
    for i := 0 to nodes.Length
      invariant n <= i
      invariant nodes[..n] == EligibleOf(all[..i], prometheus, killed)
      invariant forall j :: i <= j < nodes.Length ==> nodes[j] == all[j]
    {
      var node := nodes[i];
      assert all[..i + 1][..i] == all[..i];
      if IsEligible(node, prometheus, killed) {
        nodes[n] := node;
        n := n + 1;
      }
    }
    assert all[..nodes.Length] == all;
  }

  /** Fisher-Yates; `choice` stands for the random source. */
  method Shuffle(nodes: array<string>, n: nat, choice: nat -> nat)
    requires n <= nodes.Length
    requires forall i :: choice(i) <= i
    modifies nodes
    ensures multiset(nodes[..n]) == multiset(old(nodes[..n]))
    ensures nodes[n..] == old(nodes[n..])
  {
    var i := n;
    while i > 1
      invariant 0 <= i <= n
      invariant multiset(nodes[..n]) == multiset(old(nodes[..n]))
      invariant nodes[n..] == old(nodes[n..])
    {
      i := i - 1;
      var j := choice(i);
      ghost var before := nodes[..n];
      nodes[i], nodes[j] := nodes[j], nodes[i];
      assert nodes[..n] == before[i := before[j]][j := before[i]];
    }
  }

  /** Listed nodes that neither host Prometheus nor were killed. */
  ghost function Candidates(all: seq<string>, prometheus: set<string>, killed: set<string>): set<string> {
    set x | x in all && x !in prometheus && x !in killed
  }

  /**
   * Picked: distinct candidates, all n of them or the least number that reaches the failure rate
   * times n.
   */
  ghost predicate Picked(all: seq<string>, prometheus: set<string>, killed: set<string>, rate: real,
                         picked: seq<string>)
  {
    var n := |Candidates(all, prometheus, killed)|;
    && |picked| <= n
    && (|picked| < n ==> rate * n as real <= |picked| as real)
    && (|picked| > 0 ==> (|picked| - 1) as real < rate * n as real)
    && Distinct(picked)
    && forall x :: x in picked ==> x in Candidates(all, prometheus, killed)
  }

  lemma {:induction false} EligibleMembers(all: seq<string>, prometheus: set<string>, killed: set<string>)
    requires Distinct(all)
    ensures Distinct(EligibleOf(all, prometheus, killed))
    ensures forall x :: x in EligibleOf(all, prometheus, killed) <==> x in all && x !in prometheus && x !in killed
    ensures |EligibleOf(all, prometheus, killed)| == |Candidates(all, prometheus, killed)|
  {
    if all == [] {
      assert Candidates(all, prometheus, killed) == {};
    } else {
      var n := |all| - 1;
      EligibleMembers(all[..n], prometheus, killed);
      assert all == all[..n] + [all[n]];
      assert all[n] !in all[..n];
      assert Candidates(all, prometheus, killed)
          == Candidates(all[..n], prometheus, killed)
           + (if all[n] in prometheus + killed then {} else {all[n]});
    }
  }

  method PickNodes(allNodes: array<string>, prometheusPodNodes: seq<string>, killed: set<string>, rate: real,
                   choice: nat -> nat)
    returns (picked: seq<string>, ghost prometheus: set<string>)
    requires Distinct(allNodes[..]) && rate >= 0.0 && forall i :: choice(i) <= i
    modifies allNodes
    ensures forall x :: x in prometheus <==> x in prometheusPodNodes && x != ""
    ensures Picked(old(allNodes[..]), prometheus, killed, rate, picked)
  {
    var hosting: set<string> := {};
    for i := 0 to |prometheusPodNodes|
      invariant forall x :: x in hosting <==> x in prometheusPodNodes[..i] && x != ""
    {
      assert prometheusPodNodes[..i + 1] == prometheusPodNodes[..i] + [prometheusPodNodes[i]];
      if prometheusPodNodes[i] != "" {
        hosting := hosting + {prometheusPodNodes[i]};
      }
    }
    prometheus := hosting;
    picked := Choose(allNodes, hosting, killed, rate, choice);
    ChosenIsPicked(old(allNodes[..]), hosting, killed, rate, picked);
  }

  /** Filter, shuffle, and cut to the number asked for. */
  method Choose(nodes: array<string>, hosting: set<string>, killed: set<string>, rate: real, choice: nat -> nat)
    returns (picked: seq<string>)
    requires Distinct(nodes[..]) && rate >= 0.0 && forall i :: choice(i) <= i
    modifies nodes
    ensures Chosen(old(nodes[..]), hosting, killed, rate, picked)
  {
    ghost var all := nodes[..];
    var n := FilterInPlace(nodes, hosting, killed);
    ghost var eligible := nodes[..n];
    EligibleMembers(all, hosting, killed);
    Shuffle(nodes, n, choice);
    ghost var shuffled := nodes[..n];
    SameElements(eligible, shuffled);
    SameDistinctness(eligible, shuffled);
    var numNodes := NumberToFail(rate, n);
    CeilNonNegative(rate, n);
    picked := nodes[..n];
    if n > numNodes {
      picked := picked[..numNodes];
    }
  }

  ghost predicate Chosen(all: seq<string>, prometheus: set<string>, killed: set<string>, rate: real,
                         picked: seq<string>)
  {
    var n := |EligibleOf(all, prometheus, killed)|;
    && |picked| == (if n > NumberToFail(rate, n) then NumberToFail(rate, n) else n)
    && Distinct(picked)
    && forall x :: x in picked ==> x in EligibleOf(all, prometheus, killed)
  }

  lemma ChosenIsPicked(all: seq<string>, prometheus: set<string>, killed: set<string>, rate: real, picked: seq<string>)
    requires Distinct(all) && rate >= 0.0 && Chosen(all, prometheus, killed, rate, picked)
    ensures Picked(all, prometheus, killed, rate, picked)
  {
    EligibleMembers(all, prometheus, killed);
    TakesEnough(rate, |Candidates(all, prometheus, killed)|, |picked|);
  }

  lemma TakesEnough(rate: real, n: nat, k: nat)
    requires rate >= 0.0 && k == if n > NumberToFail(rate, n) then NumberToFail(rate, n) else n
    ensures k < n ==> rate * n as real <= k as real
    ensures k > 0 ==> (k - 1) as real < rate * n as real
  {
    NumberToFailIsCeiling(rate, n);
  }

  lemma CeilNonNegative(rate: real, n: nat)
    requires rate >= 0.0
    ensures NumberToFail(rate, n) >= 0
  {
    assert rate * n as real >= 0.0;
  }

  /** The number asked for is the least integer not below rate * n; below a rate of one it never exceeds n. */
  lemma NumberToFailIsCeiling(rate: real, n: nat)
    requires rate >= 0.0
    ensures (NumberToFail(rate, n) - 1) as real < rate * n as real <= NumberToFail(rate, n) as real
    ensures rate <= 1.0 ==> NumberToFail(rate, n) <= n
  {
    var x := rate * n as real;
    assert (-x).Floor as real <= -x < (-x).Floor as real + 1.0;
    if rate <= 1.0 {
      assert x <= n as real;
    }
  }

  // ------------------------------------------------------- rounds, goroutines, start and stop

  datatype Action = StopServices | RebootNode

  datatype Event = Event(action: Action, node: string)

  /** A per-node goroutine between its two recorded events. */
  datatype Routine = Started | Down | Finished

  /**
   * `killed` is shared by every run of the measurement; `batch` holds the nodes the current
   * round has not started yet; `events` is the log over all runs.
   */
  datatype World = World(running: bool, killed: set<string>, batch: seq<string>, routines: map<string, Routine>,
                         events: seq<Event>)

  datatype Step =
    | Start
    | Stop
    | Pick(all: seq<string>, prometheus: set<string>, rate: real, picked: seq<string>)
    | Spawn                       // mark the next node killed and start its goroutine
    | RecordStop(node: string)
    | StopFailed(node: string)
    | RecordReboot(node: string)

  /** The previous round's goroutines have all returned. */
  ghost predicate RoundOver(w: World) {
    w.batch == [] && forall n :: n in w.routines ==> w.routines[n].Finished?
  }

  ghost predicate Enabled(w: World, s: Step) {
    match s
    case Start => !w.running
    case Stop => w.running && RoundOver(w)
    case Pick(all, prometheus, rate, picked) =>
      w.running && RoundOver(w) && Distinct(all) && Picked(all, prometheus, w.killed, rate, picked)
    case Spawn => w.batch != []
    case RecordStop(n) => n in w.routines && w.routines[n].Started?
    case StopFailed(n) => n in w.routines && w.routines[n].Down?
    case RecordReboot(n) => n in w.routines && w.routines[n].Down?
  }

  ghost function Apply(w: World, s: Step): World
    requires Enabled(w, s)
  {
    match s
    case Start => w.(running := true)
    case Stop => w.(running := false)
    case Pick(_, _, _, picked) => w.(batch := picked)
    case Spawn =>
      w.(killed := w.killed + {w.batch[0]}, routines := w.routines[w.batch[0] := Started], batch := w.batch[1..])
    case RecordStop(n) => w.(routines := w.routines[n := Down], events := w.events + [Event(StopServices, n)])
    case StopFailed(n) => w.(routines := w.routines[n := Finished])
    case RecordReboot(n) => w.(routines := w.routines[n := Finished], events := w.events + [Event(RebootNode, n)])
  }

  ghost predicate IsRun(w: World, steps: seq<Step>)
    decreases |steps|
  {
    steps == [] || (Enabled(w, steps[0]) && IsRun(Apply(w, steps[0]), steps[1..]))
  }

  ghost function After(w: World, steps: seq<Step>): World
    requires IsRun(w, steps)
    decreases |steps|
  {
    if steps == [] then w else After(Apply(w, steps[0]), steps[1..])
  }

  /** Nothing has run yet; `excluded` nodes count as killed from the start. */
  ghost function Initial(excluded: set<string>): World {
    World(false, excluded, [], map[], [])
  }

  ghost predicate Recorded(events: seq<Event>, e: Event) {
    exists i :: 0 <= i < |events| && events[i] == e
  }

  /** Each event at most once, and every reboot after the stop of the same node. */
  ghost predicate Orderly(events: seq<Event>) {
    && (forall i, j :: 0 <= i < j < |events| ==> events[i] != events[j])
    && (forall j :: 0 <= j < |events| && events[j].action.RebootNode? ==>
          Recorded(events[..j], Event(StopServices, events[j].node)))
  }

  ghost predicate Inv(w: World, excluded: set<string>) {
    && Orderly(w.events)
    && (!w.running ==> RoundOver(w))
    && excluded <= w.killed
    && Distinct(w.batch) && (forall x :: x in w.batch ==> x !in w.killed)
    && (forall n :: n in w.routines ==> n in w.killed && n !in excluded)
    && (forall i :: 0 <= i < |w.events| ==> w.events[i].node in w.routines)
    && (forall n :: n in w.routines && w.routines[n].Started? ==> !Recorded(w.events, Event(StopServices, n)))
    && (forall n :: n in w.routines && !w.routines[n].Finished? ==> !Recorded(w.events, Event(RebootNode, n)))
    && (forall n :: n in w.routines && w.routines[n].Down? ==> Recorded(w.events, Event(StopServices, n)))
  }

  lemma RecordedExtends(events: seq<Event>, e: Event, x: Event)
    ensures Recorded(events + [e], x) <==> Recorded(events, x) || x == e
  {
    var all := events + [e];
    assert all[|events|] == e;
    if Recorded(events, x) {
      var i :| 0 <= i < |events| && events[i] == x;
      assert all[i] == x;
    }
  }

  lemma OrderlyExtends(events: seq<Event>, e: Event)
    requires Orderly(events) && !Recorded(events, e)
    requires e.action.RebootNode? ==> Recorded(events, Event(StopServices, e.node))
    ensures Orderly(events + [e])
  {
    var all := events + [e];
    assert all[..|events|] == events;
    forall j | 0 <= j < |all| && all[j].action.RebootNode?
      ensures Recorded(all[..j], Event(StopServices, all[j].node))
    {
      if j < |events| { assert all[..j] == events[..j]; }
    }
  }

  lemma StepKeepsInv(w: World, s: Step, excluded: set<string>)
    requires Inv(w, excluded) && Enabled(w, s)
    ensures Inv(Apply(w, s), excluded)
  {
    match s
    case Spawn => SpawnKeepsInv(w, excluded);
    case RecordStop(n) => RecordKeepsInv(w, s, Event(StopServices, n), excluded);
    case RecordReboot(n) => RecordKeepsInv(w, s, Event(RebootNode, n), excluded);
    case _ =>
  }

  lemma SpawnKeepsInv(w: World, excluded: set<string>)
    requires Inv(w, excluded) && Enabled(w, Spawn)
    ensures Inv(Apply(w, Spawn), excluded)
  {
    var n := w.batch[0];
    forall a ensures !Recorded(w.events, Event(a, n)) {
      assert forall i :: 0 <= i < |w.events| ==> w.events[i].node in w.killed;
    }
  }

  lemma RecordKeepsInv(w: World, s: Step, e: Event, excluded: set<string>)
    requires Inv(w, excluded) && Enabled(w, s)
    requires s == (if e.action.StopServices? then RecordStop(e.node) else RecordReboot(e.node))
    ensures Inv(Apply(w, s), excluded)
  {
    OrderlyExtends(w.events, e);
    forall x { RecordedExtends(w.events, e, x); }
  }

  lemma {:induction false} RunKeepsInv(w: World, steps: seq<Step>, excluded: set<string>)
    requires Inv(w, excluded) && IsRun(w, steps)
    ensures Inv(After(w, steps), excluded)
    decreases |steps|
  {
    if steps != [] {
      StepKeepsInv(w, steps[0], excluded);
      RunKeepsInv(Apply(w, steps[0]), steps[1..], excluded);
    }
  }

  /**
   * Over every run: no node is stopped twice or rebooted twice, every reboot follows the stop
   * of the same node, no excluded node is ever touched, and nothing is under way while stopped.
   */
  lemma KillingIsOrderly(steps: seq<Step>, excluded: set<string>)
    requires IsRun(Initial(excluded), steps)
    ensures var w := After(Initial(excluded), steps);
      && Orderly(w.events)
      && (!w.running ==> w.batch == [] && forall n :: n in w.routines ==> w.routines[n].Finished?)
      && excluded <= w.killed
      && (forall i :: 0 <= i < |w.events| ==> w.events[i].node in w.killed && w.events[i].node !in excluded)
  {
    RunKeepsInv(Initial(excluded), steps, excluded);
  }

  ghost function Members(s: seq<string>): set<string> { set x | x in s }

  /** No pick contains a node of `banned` or a node hosting Prometheus, and no two picks share a node. */
  ghost predicate PicksApart(steps: seq<Step>, banned: set<string>) {
    && (forall i :: 0 <= i < |steps| && steps[i].Pick? ==> Members(steps[i].picked) !! banned + steps[i].prometheus)
    && (forall i, j :: 0 <= i < j < |steps| && steps[i].Pick? && steps[j].Pick? ==>
          Members(steps[i].picked) !! Members(steps[j].picked))
  }

  /** `banned` covers the nodes killed so far and those still to be started in this round. */
  lemma {:induction false} PicksStayApart(w: World, steps: seq<Step>, banned: set<string>)
    requires IsRun(w, steps) && banned <= w.killed + Members(w.batch)
    ensures PicksApart(steps, banned)
    decreases |steps|
  {
    if steps != [] {
      var s, rest := steps[0], steps[1..];
      assert w.batch != [] ==> w.batch == [w.batch[0]] + w.batch[1..];
      var banned' := if s.Pick? then banned + Members(s.picked) else banned;
      PicksStayApart(Apply(w, s), rest, banned');
      assert forall i :: 1 <= i < |steps| ==> steps[i] == rest[i - 1];
    }
  }

  /** Over all rounds and restarts: excluded and Prometheus nodes are never picked, no node is picked twice. */
  lemma PicksAreSafe(steps: seq<Step>, excluded: set<string>)
    requires IsRun(Initial(excluded), steps)
    ensures PicksApart(steps, excluded)
  {
    PicksStayApart(Initial(excluded), steps, excluded);
  }

  // ------------------------------------------------------- a full cycle

  lemma {:induction false} RunExtends(w: World, steps: seq<Step>, s: Step)
    requires IsRun(w, steps) && Enabled(After(w, steps), s)
    ensures IsRun(w, steps + [s]) && After(w, steps + [s]) == Apply(After(w, steps), s)
    decreases |steps|
  {
    if steps == [] {
      assert steps + [s] == [s] && [s][1..] == [];
    } else {
      assert (steps + [s])[1..] == steps[1..] + [s];
      RunExtends(Apply(w, steps[0]), steps[1..], s);
    }
  }

  /** One round on one node, whose stop fails or succeeds. */
  lemma OneRound(w: World, before: seq<Step>, pick: Step, n: string, fails: bool) returns (steps: seq<Step>)
    requires IsRun(w, before) && pick.Pick? && pick.picked == [n] && Enabled(After(w, before), pick)
    ensures IsRun(w, steps)
    ensures var v := After(w, before);
      After(w, steps) == v.(killed := v.killed + {n}, batch := [], routines := v.routines[n := Finished],
                            events := v.events + [Event(StopServices, n)] +
                              (if fails then [] else [Event(RebootNode, n)]))
  {
    var v := After(w, before);
    steps := before;
    RunExtends(w, steps, pick);
    steps := steps + [pick];
    RunExtends(w, steps, Spawn);
    steps := steps + [Spawn];
    var v2 := After(w, steps);
    assert v2 == v.(killed := v.killed + {n}, batch := [], routines := v.routines[n := Started]);
    RunExtends(w, steps, RecordStop(n));
    steps := steps + [RecordStop(n)];
    var last := if fails then StopFailed(n) else RecordReboot(n);
    RunExtends(w, steps, last);
    steps := steps + [last];
    assert v2.routines[n := Down][n := Finished] == v.routines[n := Finished];
  }

  /** A round can stop and reboot its node, the next one can fail to stop another, and the killer can be stopped. */
  lemma CycleIsPossible() returns (steps: seq<Step>)
    ensures IsRun(Initial({"x"}), steps)
    ensures var w := After(Initial({"x"}), steps);
      && !w.running && w.killed == {"x", "n", "m"}
      && w.events == [Event(StopServices, "n"), Event(RebootNode, "n"), Event(StopServices, "m")]
  {
    var w := Initial({"x"});
    steps := [];
    RunExtends(w, steps, Start);
    steps := steps + [Start];
    OnlyCandidate(After(w, steps), ["x", "n"], 1.0, "n");
    steps := OneRound(w, steps, Pick(["x", "n"], {}, 1.0, ["n"]), "n", false);
    OnlyCandidate(After(w, steps), ["n", "m"], 0.5, "m");
    steps := OneRound(w, steps, Pick(["n", "m"], {}, 0.5, ["m"]), "m", true);
    RunExtends(w, steps, Stop);
    steps := steps + [Stop];
  }

  lemma OnlyCandidate(w: World, all: seq<string>, rate: real, n: string)
    requires w.running && RoundOver(w) && Distinct(all) && 0.0 < rate <= 1.0
    requires n in all && n !in w.killed && forall x :: x in all && x != n ==> x in w.killed
    ensures Enabled(w, Pick(all, {}, rate, [n]))
  {
    assert Candidates(all, {}, w.killed) == {n};
  }
}
