/**
 * WaitForControlledPodsRunning: one worker folds the informer's events, in order,
 * into a key set, a maximal resource version and a map of checkers; `gather`
 * compares that state with a separate LIST, waits for the checkers and counts.
 */
module ControlledPodsBarrier {
  import opened Common

  /** `spec` is None when the object's spec cannot be read, which makes spec comparison fail. */
  datatype Object = Object(key: string, uid: string, version: nat, spec: Option<string>)

  datatype Event = Added(after: Object) | Updated(before: Object, after: Object) | Deleted(before: Object)

  datatype Status = Unknown | Running | Gone | Failed | TimedOut | DeleteTimedOut

  /** A checker waits for the pods of the object it was created for. */
  datatype Checker = Checker(target: Object, isDeleted: bool, status: Status)

  datatype State = State(objectKeys: set<string>, opResourceVersion: nat, checkers: map<string, Checker>)

  // ------------------------------------------------------- one event

  function OldOf(e: Event): Option<Object> {
    if e.Added? then None else Some(e.before)
  }

  function NewOf(e: Event): Option<Object> {
    if e.Deleted? then None else Some(e.after)
  }

  function ObjectOf(e: Event): Object {
    if e.Deleted? then e.before else e.after
  }

  predicate Readable(o: Option<Object>) {
    o.Some? ==> o.value.spec.Some?
  }

  /** None when a spec cannot be read; an absent object differs from every readable one. */
  function SpecsEqual(x: Option<Object>, y: Option<Object>): Option<bool> {
    if !Readable(x) || !Readable(y) then None
    else if x.None? || y.None? then Some(x == y)
    else Some(x.value.spec == y.value.spec)
  }

  function Max(a: nat, b: nat): nat { if b > a then b else a }

  function VersionAfter(v: nat, x: Option<Object>): nat {
    if x.Some? then Max(v, x.value.version) else v
  }

  function KeyOf(x: Option<Object>): set<string> {
    if x.Some? then {x.value.key} else {}
  }

  function CheckersAfter(c: map<string, Checker>, e: Event, created: bool): map<string, Checker> {
    if SpecsEqual(OldOf(e), NewOf(e)) != Some(false) then c
    else
      var kept := c - KeyOf(OldOf(e));
      var o := ObjectOf(e);
      if created then kept[o.key := Checker(o, e.Deleted?, Unknown)] else kept
  }

  /** `created` says whether a checker could be created for the handled object. */
  function Handle(s: State, e: Event, created: bool): State {
    State(s.objectKeys - KeyOf(OldOf(e)) + KeyOf(NewOf(e)),
          VersionAfter(VersionAfter(s.opResourceVersion, OldOf(e)), NewOf(e)),
          CheckersAfter(s.checkers, e, created))
  }

  class Measurement {
    var isRunning: bool
    var objectKeys: set<string>
    var opResourceVersion: nat
    var checkerMap: map<string, Checker>

    ghost function View(): State reads this {
      State(objectKeys, opResourceVersion, checkerMap)
    }

    constructor ()
      ensures View() == State({}, 0, map[]) && !isRunning
    {
      isRunning, objectKeys, opResourceVersion, checkerMap := false, {}, 0, map[];
    }

    method HandleObject(oldObj: Option<Object>, newObj: Option<Object>, created: bool)
      requires oldObj.Some? || newObj.Some?
      modifies this
      ensures isRunning == old(isRunning)
      ensures
        var e := if oldObj.None? then Added(newObj.value)
                 else if newObj.None? then Deleted(oldObj.value) else Updated(oldObj.value, newObj.value);
        View() == if old(isRunning) then Handle(old(View()), e, created)
                  else Handle(old(View()), e, created).(checkers := old(checkerMap))
      ensures oldObj.Some? && newObj.Some? && oldObj.value.spec == newObj.value.spec ==> checkerMap == old(checkerMap)
    {
      var isEqual := SpecsEqual(oldObj, newObj);
      if isEqual == Some(false) && isRunning {
        DeleteObjectLocked(oldObj);
        HandleObjectLocked(oldObj, newObj, created);
      }
      UpdateCacheLocked(oldObj, newObj);
    }

    method DeleteObjectLocked(obj: Option<Object>)
      modifies `checkerMap
      ensures checkerMap == old(checkerMap) - KeyOf(obj)
    {
      if obj.None? {
        assert checkerMap - {} == checkerMap;
        return;
      }
      checkerMap := checkerMap - {obj.value.key};
    }

    method HandleObjectLocked(oldObj: Option<Object>, newObj: Option<Object>, created: bool)
      requires oldObj.Some? || newObj.Some?
      modifies `checkerMap
      ensures var o := if newObj.None? then oldObj.value else newObj.value;
        checkerMap == if created then old(checkerMap)[o.key := Checker(o, newObj.None?, Unknown)] else old(checkerMap)
    {
      var isObjDeleted := newObj.None?;
      var handled := if isObjDeleted then oldObj.value else newObj.value;
      if !created { return; }
      checkerMap := checkerMap[handled.key := Checker(handled, isObjDeleted, Unknown)];
    }

    method UpdateCacheLocked(oldObj: Option<Object>, newObj: Option<Object>)
      modifies `objectKeys, `opResourceVersion
      ensures objectKeys == old(objectKeys) - KeyOf(oldObj) + KeyOf(newObj)
      ensures opResourceVersion == VersionAfter(VersionAfter(old(opResourceVersion), oldObj), newObj)
    {
      if oldObj.Some? {
        objectKeys := objectKeys - {oldObj.value.key};
        UpdateOpResourceVersionLocked(oldObj.value);
      }
      if newObj.Some? {
        objectKeys := objectKeys + {newObj.value.key};
        UpdateOpResourceVersionLocked(newObj.value);
      }
    }

    method UpdateOpResourceVersionLocked(o: Object)
      modifies `opResourceVersion
      ensures opResourceVersion == Max(old(opResourceVersion), o.version)
    {
      if o.version > opResourceVersion {
        opResourceVersion := o.version;
      }
    }
  }

  // ------------------------------------------------------- gather

  ghost predicate IsMaxVersion(objects: set<Object>, v: nat) {
    && (forall o :: o in objects ==> o.version <= v)
    && (v == 0 || exists o :: o in objects && o.version == v)
  }

  /** Keys and greatest version of a LIST answer. */
  method ObjectKeysAndMaxVersion(objects: seq<Object>) returns (keys: set<string>, maxVersion: nat)
    ensures keys == set o | o in objects :: o.key
    ensures IsMaxVersion((set o | o in objects), maxVersion)
  {
    keys, maxVersion := {}, 0;
    for i := 0 to |objects|
      invariant keys == set o | o in objects[..i] :: o.key
      invariant IsMaxVersion((set o | o in objects[..i]), maxVersion)
    {
      assert objects[..i + 1] == objects[..i] + [objects[i]];
      keys := keys + {objects[i].key};
      if objects[i].version > maxVersion {
        maxVersion := objects[i].version;
      }
    }
    assert objects[..|objects|] == objects;
  }

  predicate BarrierOpen(s: State, listed: set<string>, maxVersion: nat) {
    s.opResourceVersion >= maxVersion && listed == s.objectKeys
  }

  function WithStatus(c: map<string, Checker>, st: Status): set<string> {
    set k | k in c && c[k].status == st
  }

  /** No checker is unfinished, late or failed, and as many run as were listed. */
  ghost predicate CountsSucceed(c: map<string, Checker>, listed: nat) {
    && WithStatus(c, Unknown) == WithStatus(c, TimedOut) == WithStatus(c, DeleteTimedOut) == WithStatus(c, Failed) == {}
    && |WithStatus(c, Running)| == listed
  }

  datatype Outcome = Success | UnknownStatus | TimedOutObjects(n: nat) | WrongNumber(running: nat)
    | FailedObjects(n: nat)

  /** Counts checkers by status in whatever order the map yields them. */
  method Gather(c: map<string, Checker>, listed: nat) returns (r: Outcome)
    ensures r.UnknownStatus? <==> WithStatus(c, Unknown) != {}
    ensures r.Success? <==> CountsSucceed(c, listed)
    ensures var late := |WithStatus(c, TimedOut)| + |WithStatus(c, DeleteTimedOut)|;
      WithStatus(c, Unknown) == {} ==>
        if late > 0 then r == TimedOutObjects(late)
        else if |WithStatus(c, Running)| != listed then r == WrongNumber(|WithStatus(c, Running)|)
        else if WithStatus(c, Failed) != {} then r == FailedObjects(|WithStatus(c, Failed)|)
        else r.Success?
  {
    var running, gone, timeouts, failed := 0, 0, 0, 0;
    var left := c.Keys;
    ghost var seen: map<string, Checker> := map[];
    while left != {}
      invariant left <= c.Keys && seen.Keys == c.Keys - left
      invariant forall k :: k in seen ==> seen[k] == c[k]
      invariant Number(seen, Unknown) == 0 && running == Number(seen, Running) && failed == Number(seen, Failed)
      invariant timeouts == Number(seen, TimedOut) + Number(seen, DeleteTimedOut)
      decreases left
    {
      var k :| k in left;
      left := left - {k};
      CountOneMore(seen, k, c[k], Unknown);
      CountOneMore(seen, k, c[k], Running);
      CountOneMore(seen, k, c[k], TimedOut);
      CountOneMore(seen, k, c[k], DeleteTimedOut);
      CountOneMore(seen, k, c[k], Failed);
      seen := seen[k := c[k]];
      match c[k].status
      case Running => running := running + 1;
      case Gone => gone := gone + 1;
      case TimedOut => timeouts := timeouts + 1;
      case DeleteTimedOut => timeouts := timeouts + 1;
      case Failed => failed := failed + 1;
      case Unknown =>
        assert k in WithStatus(c, Unknown);
        return UnknownStatus;
    }
    assert seen == c;
    if timeouts > 0 { return TimedOutObjects(timeouts); }
    if listed != running { return WrongNumber(running); }
    if failed > 0 { return FailedObjects(failed); }
    return Success;
  }

  function Number(c: map<string, Checker>, st: Status): nat {
    |WithStatus(c, st)|
  }

  lemma CountOneMore(c: map<string, Checker>, k: string, x: Checker, st: Status)
    requires k !in c
    ensures Number(c[k := x], st) == Number(c, st) + (if x.status == st then 1 else 0)
  {
    assert WithStatus(c[k := x], st) == WithStatus(c, st) + (if x.status == st then {k} else {});
  }

  // ------------------------------------------------------- the event log

  /** Objects of the cluster after the first n events. */
  ghost function Cluster(log: seq<Event>, n: nat): map<string, Object>
    requires n <= |log|
  {
    if n == 0 then map[]
    else
      var c, e := Cluster(log, n - 1), log[n - 1];
      if e.Deleted? then c - {e.before.key} else c[e.after.key := e.after]
  }

  ghost predicate Applicable(c: map<string, Object>, e: Event) {
    match e
    case Added(o) => o.key !in c
    case Updated(o, p) => o.key in c && c[o.key] == o && p.key == o.key && p.uid == o.uid
    case Deleted(o) => o.key in c
  }

  /**
   * An informer's log: `batch` additions in any order (the initial list), then watch
   * events whose versions exceed everything before them.
   */
  ghost predicate WellFormed(log: seq<Event>, batch: nat) {
    && batch <= |log|
    && (forall i :: 0 <= i < batch ==> log[i].Added?)
    && (forall i: nat {:trigger ApplicableAt(log, i)} :: i < |log| ==> ApplicableAt(log, i))
    && (forall j: nat, i: nat {:trigger VersionBelow(log, j, i)} ::
          j < i < |log| && batch <= i ==> VersionBelow(log, j, i))
    && (batch < |log| ==> ObjectOf(log[batch]).version > 0)
  }

  ghost predicate ApplicableAt(log: seq<Event>, i: nat) {
    i < |log| && Applicable(Cluster(log, i), log[i])
  }

  ghost predicate VersionBelow(log: seq<Event>, j: nat, i: nat) {
    j < i < |log| && ObjectOf(log[j]).version < ObjectOf(log[i]).version
  }

  predicate ComparisonWorks(e: Event) {
    Readable(OldOf(e)) && Readable(NewOf(e))
  }

  /** The handler sees a changed spec in the event. */
  predicate Detected(e: Event) {
    SpecsEqual(OldOf(e), NewOf(e)) == Some(false)
  }

  /** The object carried by the last event among the first n in which a change of k was seen. */
  ghost function LastDetected(log: seq<Event>, n: nat, k: string): Option<Object>
    requires n <= |log|
  {
    if n == 0 then None
    else if ObjectOf(log[n - 1]).key == k && Detected(log[n - 1]) then Some(ObjectOf(log[n - 1]))
    else LastDetected(log, n - 1, k)
  }

  /** No comparison failed on the first n events of k. */
  ghost predicate Compared(log: seq<Event>, n: nat, k: string) {
    n <= |log| && forall i :: 0 <= i < n && ObjectOf(log[i]).key == k ==> ComparisonWorks(log[i])
  }

  /** No comparison failed on a deletion among the first n events. */
  ghost predicate DeletionsCompared(log: seq<Event>, n: nat) {
    n <= |log| && forall i :: 0 <= i < n && log[i].Deleted? ==> ComparisonWorks(log[i])
  }

  /** Without failed comparisons the last change seen gave the present spec. */
  lemma {:induction false} ComparedMeansDetected(log: seq<Event>, batch: nat, n: nat, k: string)
    requires WellFormed(log, batch) && Compared(log, n, k) && k in Cluster(log, n)
    ensures LastDetected(log, n, k).Some? && LastDetected(log, n, k).value.spec == Cluster(log, n)[k].spec
  {
    var e := log[n - 1];
    assert ApplicableAt(log, n - 1);
    if ObjectOf(e).key != k || !Detected(e) {
      ComparedMeansDetected(log, batch, n - 1, k);
    }
  }

  /** Index of the last event among the first n that concerns k. */
  ghost function LastTouch(log: seq<Event>, n: nat, k: string): nat
    requires n <= |log|
  {
    if n == 0 then 0
    else if ObjectOf(log[n - 1]).key == k then n - 1
    else LastTouch(log, n - 1, k)
  }

  /** A live object is the one carried by the last event that concerns its key. */
  lemma {:induction false} LiveObjectWasCarried(log: seq<Event>, batch: nat, n: nat, k: string)
    requires WellFormed(log, batch) && n <= |log|
    requires k in Cluster(log, n)
    ensures var j := LastTouch(log, n, k);
      && j < n && NewOf(log[j]) == Some(Cluster(log, n)[k])
      && Cluster(log, n)[k].key == k
      && forall i :: j < i < n ==> ObjectOf(log[i]).key != k
  {
    if n > 0 {
      assert ApplicableAt(log, n - 1);
      if ObjectOf(log[n - 1]).key != k {
        LiveObjectWasCarried(log, batch, n - 1, k);
      }
    }
  }

  lemma {:induction false} LastTouchGrows(log: seq<Event>, m: nat, n: nat, k: string)
    requires m <= n <= |log|
    requires m > 0 ==> LastTouch(log, m, k) < m
    ensures LastTouch(log, m, k) <= LastTouch(log, n, k)
  {
    if m < n && ObjectOf(log[n - 1]).key != k {
      LastTouchGrows(log, m, n - 1, k);
    }
  }

  /** The version the fold reaches after n events. */
  ghost function OpVersion(log: seq<Event>, n: nat): nat
    requires n <= |log|
  {
    if n == 0 then 0
    else VersionAfter(VersionAfter(OpVersion(log, n - 1), OldOf(log[n - 1])), NewOf(log[n - 1]))
  }

  lemma {:induction false} OpVersionIsLeastBound(log: seq<Event>, batch: nat, n: nat, bound: nat)
    requires WellFormed(log, batch) && n <= |log|
    ensures forall i :: 0 <= i < n ==> ObjectOf(log[i]).version <= OpVersion(log, n)
    ensures (forall i :: 0 <= i < n ==> ObjectOf(log[i]).version <= bound) ==> OpVersion(log, n) <= bound
  {
    if n > 0 {
      OpVersionIsLeastBound(log, batch, n - 1, bound);
      var e := log[n - 1];
      assert ApplicableAt(log, n - 1);
      if e.Updated? {
        LiveObjectWasCarried(log, batch, n - 1, e.before.key);
      }
    }
  }

  // ------------------------------------------------------- barrier soundness

  /**
   * The barrier opens at n with the keys and greatest version of the LIST taken at m:
   * then the event that carries each listed object has been handled.
   */
  lemma BarrierSound(log: seq<Event>, batch: nat, m: nat, n: nat, maxVersion: nat)
    requires WellFormed(log, batch) && batch <= m <= |log| && n <= |log|
    requires IsMaxVersion(Cluster(log, m).Values, maxVersion)
    requires OpVersion(log, n) >= maxVersion && Cluster(log, n).Keys == Cluster(log, m).Keys
    ensures forall k :: k in Cluster(log, m) ==>
      && LastTouch(log, m, k) < n
      && NewOf(log[LastTouch(log, m, k)]) == Some(Cluster(log, m)[k])
      && Cluster(log, n)[k].version >= Cluster(log, m)[k].version
  {
    forall k | k in Cluster(log, m)
      ensures LastTouch(log, m, k) < n && NewOf(log[LastTouch(log, m, k)]) == Some(Cluster(log, m)[k])
      ensures Cluster(log, n)[k].version >= Cluster(log, m)[k].version
    {
      CarriedBefore(log, batch, m, n, maxVersion, k);
      LiveObjectWasCarried(log, batch, m, k);
      VersionsGrow(log, batch, m, n, k);
    }
  }

  /** The event that carries a listed object is among the handled ones. */
  lemma CarriedBefore(log: seq<Event>, batch: nat, m: nat, n: nat, maxVersion: nat, k: string)
    requires WellFormed(log, batch) && batch <= m <= |log| && n <= |log|
    requires k in Cluster(log, m) && k in Cluster(log, n)
    requires Cluster(log, m)[k].version <= maxVersion <= OpVersion(log, n)
    ensures LastTouch(log, m, k) < n
  {
    var i, j := LastTouch(log, m, k), LastTouch(log, n, k);
    LiveObjectWasCarried(log, batch, m, k);
    LiveObjectWasCarried(log, batch, n, k);
    assert ApplicableAt(log, i);
    if i >= n {
      if i < batch {
        // A second addition of k inside the batch.
        LiveUntilTouched(log, batch, j, i, k);
      } else {
        assert batch < i ==> VersionBelow(log, batch, i);
        forall l: nat | l < n ensures ObjectOf(log[l]).version < ObjectOf(log[i]).version {
          assert VersionBelow(log, l, i);
        }
        OpVersionIsLeastBound(log, batch, n, Cluster(log, m)[k].version - 1);
      }
    }
  }

  /** Once the event carrying a listed object is handled, the live object has at least its version. */
  lemma VersionsGrow(log: seq<Event>, batch: nat, m: nat, n: nat, k: string)
    requires WellFormed(log, batch) && batch <= m <= |log| && n <= |log|
    requires k in Cluster(log, m) && k in Cluster(log, n) && LastTouch(log, m, k) < n
    ensures Cluster(log, n)[k].version >= Cluster(log, m)[k].version
  {
    var i, j := LastTouch(log, m, k), LastTouch(log, n, k);
    LiveObjectWasCarried(log, batch, m, k);
    LiveObjectWasCarried(log, batch, n, k);
    if n < m {
      LastTouchGrows(log, n, m, k);
      assert j == i;
    } else {
      LastTouchGrows(log, m, n, k);
      if i < j {
        assert m <= j && VersionBelow(log, i, j);
      }
    }
  }

  /** Within the batch, an added key stays. */
  lemma {:induction false} LiveUntilTouched(log: seq<Event>, batch: nat, j: nat, i: nat, k: string)
    requires WellFormed(log, batch) && j < i <= batch
    requires log[j].after.key == k
    ensures k in Cluster(log, i)
  {
    if j + 1 < i {
      LiveUntilTouched(log, batch, j, i - 1, k);
    }
  }

  // ------------------------------------------------------- runs of worker and checkers

  datatype Step = HandleNext(created: bool) | Finish(key: string, status: Status)

  /** `pos` events of the log have been handled. */
  datatype System = System(pos: nat, s: State)

  const STARTED := System(0, State({}, 0, map[]))

  predicate Enabled(log: seq<Event>, y: System, st: Step) {
    match st
    case HandleNext(_) => y.pos < |log|
    case Finish(k, status) =>
      && k in y.s.checkers && y.s.checkers[k].status.Unknown?
      && (if y.s.checkers[k].isDeleted then status in {Gone, Failed, DeleteTimedOut}
          else status in {Running, Failed, TimedOut})
  }

  function Apply(log: seq<Event>, y: System, st: Step): System
    requires Enabled(log, y, st)
  {
    match st
    case HandleNext(created) => System(y.pos + 1, Handle(y.s, log[y.pos], created))
    case Finish(k, status) =>
      y.(s := y.s.(checkers := y.s.checkers[k := y.s.checkers[k].(status := status)]))
  }

  // ------------------------------------------------------- when a checker is replaced

  /** What handling an event does, read off the event. */
  lemma EventEffect(log: seq<Event>, y: System, created: bool)
    requires y.pos < |log|
    ensures var s, s' := y.s, Apply(log, y, HandleNext(created)).s;
      match log[y.pos]
      case Added(o) =>
        && s'.objectKeys == s.objectKeys + {o.key}
        && s'.checkers == if o.spec.Some? &&
          created then s.checkers[o.key := Checker(o, false, Unknown)] else s.checkers
      case Updated(o, p) =>
        && s'.objectKeys == s.objectKeys - {o.key} + {p.key}
        && (o.spec == p.spec || o.spec.None? || p.spec.None? ==> s'.checkers == s.checkers)
        && (o.spec.Some? && p.spec.Some? && o.spec != p.spec ==>
              s'.checkers == if created then (s.checkers - {o.key})[p.key := Checker(p, false, Unknown)]
                             else s.checkers - {o.key})
      case Deleted(o) =>
        && s'.objectKeys == s.objectKeys - {o.key}
        && s'.checkers == (if o.spec.None? then s.checkers
                           else if created then s.checkers[o.key := Checker(o, true, Unknown)]
                           else s.checkers - {o.key})
  {
    match log[y.pos]
    case Added(o) => assert y.s.checkers - {} == y.s.checkers;
    case Updated(o, p) =>
    case Deleted(o) => assert (y.s.checkers - {o.key})[o.key := Checker(o, true, Unknown)]
                           == y.s.checkers[o.key := Checker(o, true, Unknown)];
  }

  /** The event adds or deletes k, or changes its spec from one readable string to another. */
  predicate Disturbs(e: Event, k: string) {
    match e
    case Added(o) => o.key == k
    case Updated(o, p) => (o.key == k || p.key == k) && o.spec.Some? && p.spec.Some? && o.spec.value != p.spec.value
    case Deleted(o) => o.key == k
  }

  /** In every run a final status stays until an event of its key carries another spec, or adds or deletes it. */
  lemma {:induction false} FinalStatusStays(log: seq<Event>, y: System, steps: seq<Step>, k: string)
    requires y.pos <= |log| && IsRun(log, y, steps)
    requires k in y.s.checkers && !y.s.checkers[k].status.Unknown?
    requires forall i :: y.pos <= i < After(log, y, steps).pos && i < |log| ==> !Disturbs(log[i], k)
    ensures k in After(log, y, steps).s.checkers && After(log, y, steps).s.checkers[k] == y.s.checkers[k]
    decreases |steps|
  {
    if steps != [] {
      var y1 := Apply(log, y, steps[0]);
      PositionsGrow(log, y1, steps[1..]);
      if steps[0].HandleNext? {
        EventEffect(log, y, steps[0].created);
        assert !Disturbs(log[y.pos], k);
      }
      FinalStatusStays(log, y1, steps[1..], k);
    }
  }

  lemma {:induction false} PositionsGrow(log: seq<Event>, y: System, steps: seq<Step>)
    requires y.pos <= |log| && IsRun(log, y, steps)
    ensures y.pos <= After(log, y, steps).pos <= |log|
    decreases |steps|
  {
    if steps != [] { PositionsGrow(log, Apply(log, y, steps[0]), steps[1..]); }
  }

  ghost predicate IsRun(log: seq<Event>, y: System, steps: seq<Step>)
    decreases |steps|
  {
    steps == [] || (Enabled(log, y, steps[0]) && IsRun(log, Apply(log, y, steps[0]), steps[1..]))
  }

  ghost function After(log: seq<Event>, y: System, steps: seq<Step>): System
    requires IsRun(log, y, steps)
    decreases |steps|
  {
    if steps == [] then y else After(log, Apply(log, y, steps[0]), steps[1..])
  }

  /** Checkers that are not for deletions exist for present keys only, and are for the last change seen. */
  ghost predicate CheckersMatch(log: seq<Event>, n: nat, c: map<string, Checker>)
    requires n <= |log|
  {
    forall k :: k in c ==>
      if c[k].isDeleted then c[k].status in {Unknown, Gone, Failed, DeleteTimedOut}
      else
        && k in Cluster(log, n) && c[k].target.uid == Cluster(log, n)[k].uid
        && LastDetected(log, n, k) == Some(c[k].target)
  }

  /** What a failed comparison of a deletion can break is the last part only. */
  ghost predicate Inv(log: seq<Event>, y: System) {
    && y.pos <= |log|
    && y.s.objectKeys == Cluster(log, y.pos).Keys
    && y.s.opResourceVersion == OpVersion(log, y.pos)
    && (DeletionsCompared(log, y.pos) ==> CheckersMatch(log, y.pos, y.s.checkers))
  }

  lemma StepKeepsInv(log: seq<Event>, batch: nat, y: System, st: Step)
    requires WellFormed(log, batch) && Inv(log, y) && Enabled(log, y, st)
    ensures Inv(log, Apply(log, y, st))
  {
    if st.HandleNext? {
      assert ApplicableAt(log, y.pos);
    }
  }

  lemma {:induction false} RunKeepsInv(log: seq<Event>, batch: nat, y: System, steps: seq<Step>)
    requires WellFormed(log, batch) && Inv(log, y) && IsRun(log, y, steps)
    ensures Inv(log, After(log, y, steps))
    decreases |steps|
  {
    if steps != [] {
      StepKeepsInv(log, batch, y, steps[0]);
      RunKeepsInv(log, batch, Apply(log, y, steps[0]), steps[1..]);
    }
  }

  /** The barrier is open in every state that has handled exactly the events up to the LIST. */
  lemma BarrierOpensAtList(log: seq<Event>, batch: nat, m: nat, maxVersion: nat, steps: seq<Step>)
    requires WellFormed(log, batch) && m <= |log|
    requires IsMaxVersion(Cluster(log, m).Values, maxVersion)
    requires IsRun(log, STARTED, steps) && After(log, STARTED, steps).pos == m
    ensures BarrierOpen(After(log, STARTED, steps).s, Cluster(log, m).Keys, maxVersion)
  {
    RunKeepsInv(log, batch, STARTED, steps);
    OpVersionIsLeastBound(log, batch, m, 0);
    if maxVersion > 0 {
      var o :| o in Cluster(log, m).Values && o.version == maxVersion;
      var k :| k in Cluster(log, m) && Cluster(log, m)[k] == o;
      LiveObjectWasCarried(log, batch, m, k);
    }
  }

  // ------------------------------------------------------- success soundness

  /** Events in [n, n') add no key outside `listed`; listed keys may be updated, deleted and added again. */
  ghost predicate AddsOnlyListed(log: seq<Event>, n: nat, n': nat, listed: set<string>) {
    n <= n' <= |log| && forall i :: n <= i < n' && log[i].Added? ==> log[i].after.key in listed
  }

  lemma {:induction false} KeysStayListed(log: seq<Event>, batch: nat, n: nat, n': nat, listed: set<string>)
    requires WellFormed(log, batch) && AddsOnlyListed(log, n, n', listed) && Cluster(log, n).Keys <= listed
    ensures Cluster(log, n').Keys <= listed
  {
    if n < n' {
      KeysStayListed(log, batch, n, n' - 1, listed);
      assert ApplicableAt(log, n' - 1);
    }
  }

  /** Every listed key has a running checker that is not for a deletion. */
  ghost predicate AllRunning(c: map<string, Checker>, listed: set<string>) {
    forall k :: k in listed ==> k in c && c[k].status.Running? && !c[k].isDeleted
  }

  /** As many running checkers as listed keys, none of them elsewhere: the cardinality argument. */
  lemma CountGivesRunning(log: seq<Event>, y: System, listed: set<string>)
    requires Inv(log, y) && DeletionsCompared(log, y.pos)
    requires Cluster(log, y.pos).Keys <= listed && CountsSucceed(y.s.checkers, |listed|)
    ensures AllRunning(y.s.checkers, listed) && Cluster(log, y.pos).Keys == listed
  {
    var running := WithStatus(y.s.checkers, Running);
    assert running <= Cluster(log, y.pos).Keys;
    SubsetOfSameSize(running, listed);
    forall k | k in listed ensures k in y.s.checkers && y.s.checkers[k].status.Running? { assert k in running; }
  }

  /**
   * LIST at m; the barrier opens after `steps`; the count happens after `more` steps whose events
   * add no unlisted key, and no deletion failed to be compared.  Success then means: every listed key
   * has a checker with status Running, created for the present object (by UID) as of the last change
   * of spec the handler saw, hence for its present spec if no comparison failed on that key; and the
   * version handled is at least the listed one.
   */
  lemma SuccessSound(log: seq<Event>, batch: nat, m: nat, maxVersion: nat, steps: seq<Step>, more: seq<Step>)
    requires WellFormed(log, batch) && batch <= m <= |log|
    requires IsMaxVersion(Cluster(log, m).Values, maxVersion)
    requires IsRun(log, STARTED, steps)
    requires var y := After(log, STARTED, steps);
      && BarrierOpen(y.s, Cluster(log, m).Keys, maxVersion)
      && IsRun(log, y, more)
      && AddsOnlyListed(log, y.pos, After(log, y, more).pos, Cluster(log, m).Keys)
      && DeletionsCompared(log, After(log, y, more).pos)
      && CountsSucceed(After(log, y, more).s.checkers, |Cluster(log, m).Keys|)
    ensures var y := After(log, After(log, STARTED, steps), more);
      && AllRunning(y.s.checkers, Cluster(log, m).Keys)
      && Cluster(log, y.pos).Keys == Cluster(log, m).Keys
      && forall k :: k in Cluster(log, m) ==>
           && y.s.checkers[k].target.uid == Cluster(log, y.pos)[k].uid
           && LastDetected(log, y.pos, k) == Some(y.s.checkers[k].target)
           && (Compared(log, y.pos, k) ==> y.s.checkers[k].target.spec == Cluster(log, y.pos)[k].spec)
           && LastTouch(log, m, k) < y.pos
           && Cluster(log, y.pos)[k].version >= Cluster(log, m)[k].version
  {
    var y1 := After(log, STARTED, steps);
    var y2 := After(log, y1, more);
    RunKeepsInv(log, batch, STARTED, steps);
    RunKeepsInv(log, batch, y1, more);
    KeysStayListed(log, batch, y1.pos, y2.pos, Cluster(log, m).Keys);
    CountGivesRunning(log, y2, Cluster(log, m).Keys);
    ListedVersionsHandled(log, batch, m, maxVersion, y1.pos, y2.pos);
    forall k | k in Cluster(log, m) && Compared(log, y2.pos, k)
      ensures y2.s.checkers[k].target.spec == Cluster(log, y2.pos)[k].spec
    {
      ComparedMeansDetected(log, batch, y2.pos, k);
    }
  }

  /**
   * In every run without failed comparisons of deletions: a checker is for the present spec exactly
   * when the last handled event of its key carries the same spec as the last one seen as a change.
   */
  lemma SpecIsCurrentIff(log: seq<Event>, batch: nat, steps: seq<Step>, k: string)
    requires WellFormed(log, batch) && IsRun(log, STARTED, steps)
    requires var y := After(log, STARTED, steps);
      y.pos <= |log| && DeletionsCompared(log, y.pos) && k in y.s.checkers && !y.s.checkers[k].isDeleted
    ensures var y := After(log, STARTED, steps);
      && k in Cluster(log, y.pos) && LastTouch(log, y.pos, k) < y.pos && LastDetected(log, y.pos, k).Some?
      && (y.s.checkers[k].target.spec == Cluster(log, y.pos)[k].spec
          <==> LastDetected(log, y.pos, k).value.spec == ObjectOf(log[LastTouch(log, y.pos, k)]).spec)
  {
    RunKeepsInv(log, batch, STARTED, steps);
    LiveObjectWasCarried(log, batch, After(log, STARTED, steps).pos, k);
  }

  /** The version part: what the barrier gave at n still holds at any later point with the same keys. */
  lemma ListedVersionsHandled(log: seq<Event>, batch: nat, m: nat, maxVersion: nat, n: nat, n': nat)
    requires WellFormed(log, batch) && batch <= m <= |log| && n <= n' <= |log|
    requires IsMaxVersion(Cluster(log, m).Values, maxVersion) && OpVersion(log, n) >= maxVersion
    requires Cluster(log, n).Keys == Cluster(log, m).Keys == Cluster(log, n').Keys
    ensures forall k :: k in Cluster(log, m) ==>
      LastTouch(log, m, k) < n' && Cluster(log, n')[k].version >= Cluster(log, m)[k].version
  {
    forall k | k in Cluster(log, m)
      ensures LastTouch(log, m, k) < n' && Cluster(log, n')[k].version >= Cluster(log, m)[k].version
    {
      assert Cluster(log, m)[k] in Cluster(log, m).Values;
      CarriedBefore(log, batch, m, n, maxVersion, k);
      VersionsGrow(log, batch, m, n', k);
    }
  }

  /** Without the stability assumption, success is sound exactly when nothing unlisted runs. */
  lemma SuccessSoundIff(c: map<string, Checker>, listed: set<string>)
    requires CountsSucceed(c, |listed|)
    ensures (forall k :: k in listed ==> k in c && c[k].status.Running?)
       <==> (forall k :: k in c && k !in listed ==> !c[k].status.Running?)
  {
    var running := WithStatus(c, Running);
    if running <= listed {
      SubsetOfSameSize(running, listed);
      forall k | k in listed ensures k in c && c[k].status.Running? { assert k in running; }
    }
    if listed <= running {
      SubsetOfSameSize(listed, running);
      forall k | k in c && c[k].status.Running? ensures k in listed { assert k in running; }
    }
    assert (forall k :: k in listed ==> k in c && c[k].status.Running?) ==> listed <= running;
    assert (forall k :: k in c && k !in listed ==> !c[k].status.Running?) ==> running <= listed;
  }

  const OBJECT_A := Object("a", "u", 5, Some("x"))
  const OBJECT_B := Object("b", "v", 6, Some("x"))

  /** Object "a" is listed, object "b" is created later. */
  ghost function LateLog(): seq<Event> {
    [Added(OBJECT_A), Added(OBJECT_B)]
  }

  lemma LateLogWellFormed()
    ensures WellFormed(LateLog(), 1) && Cluster(LateLog(), 1) == map["a" := OBJECT_A]
  {
    var log := LateLog();
    assert Cluster(log, 0) == map[];
    assert Cluster(log, 1) == map["a" := OBJECT_A];
    assert ApplicableAt(log, 0) && ApplicableAt(log, 1) && VersionBelow(log, 0, 1);
  }

  /** An object created after the LIST can make the count right although a listed object never ran. */
  lemma LateCreationCanFakeSuccess() returns (log: seq<Event>, steps: seq<Step>, more: seq<Step>)
    ensures WellFormed(log, 1) && IsRun(log, STARTED, steps)
    ensures var y := After(log, STARTED, steps);
      && BarrierOpen(y.s, Cluster(log, 1).Keys, 5)
      && IsRun(log, y, more)
      && var c := After(log, y, more).s.checkers;
         CountsSucceed(c, |Cluster(log, 1).Keys|) && "a" in Cluster(log, 1) && "a" !in c
  {
    log := LateLog();
    LateLogWellFormed();
    var y0 := System(1, State({"a"}, 5, map[]));
    var y2 := System(2, State({"a", "b"}, 6, map["b" := Checker(OBJECT_B, false, Running)]));
    steps, more := [HandleNext(false)], [HandleNext(true), Finish("b", Running)];
    LateFirst(log, y0);
    LateRest(log, y0, y2);
    assert WithStatus(y2.s.checkers, Running) == {"b"};
    assert Cluster(log, 1).Keys == {"a"};
  }

  lemma LateFirst(log: seq<Event>, y0: System)
    requires log == LateLog() && y0 == System(1, State({"a"}, 5, map[]))
    ensures IsRun(log, STARTED, [HandleNext(false)]) && After(log, STARTED, [HandleNext(false)]) == y0
  {
    OneStep(log, STARTED, HandleNext(false), y0);
  }

  lemma LateRest(log: seq<Event>, y0: System, y2: System)
    requires log == LateLog() && y0 == System(1, State({"a"}, 5, map[]))
    requires y2 == System(2, State({"a", "b"}, 6, map["b" := Checker(OBJECT_B, false, Running)]))
    ensures var more := [HandleNext(true), Finish("b", Running)]; IsRun(log, y0, more) && After(log, y0, more) == y2
  {
    var y1 := System(2, State({"a", "b"}, 6, map["b" := Checker(OBJECT_B, false, Unknown)]));
    var h, f := HandleNext(true), Finish("b", Running);
    assert Apply(log, y0, h) == y1;
    OneStep(log, y1, f, y2);
    assert [h, f][1..] == [f];
  }

  lemma OneStep(log: seq<Event>, y: System, st: Step, y': System)
    requires Enabled(log, y, st) && Apply(log, y, st) == y'
    ensures IsRun(log, y, [st]) && After(log, y, [st]) == y'
  {
    assert [st][1..] == [];
  }

  // ------------------------------------------------------- handler errors the count does not catch

  /** A run continued by one step. */
  lemma {:induction false} RunExtends(log: seq<Event>, y: System, steps: seq<Step>, st: Step, y': System)
    requires IsRun(log, y, steps) && Enabled(log, After(log, y, steps), st)
    requires Apply(log, After(log, y, steps), st) == y'
    ensures IsRun(log, y, steps + [st]) && After(log, y, steps + [st]) == y'
    decreases |steps|
  {
    if steps == [] {
      assert steps + [st] == [st];
      OneStep(log, y, st, y');
    } else {
      assert (steps + [st])[1..] == steps[1..] + [st];
      RunExtends(log, Apply(log, y, steps[0]), steps[1..], st, y');
    }
  }

  /** Object "a" is added; its second version has a spec that cannot be read, its third a new one. */
  ghost function UnreadableLog(): seq<Event> {
    var a, b, c := OBJECT_A, Object("a", "u", 6, None), Object("a", "u", 7, Some("y"));
    [Added(a), Updated(a, b), Updated(b, c)]
  }

  lemma UnreadableLogWellFormed()
    ensures WellFormed(UnreadableLog(), 1)
    ensures Cluster(UnreadableLog(), 3) == map["a" := Object("a", "u", 7, Some("y"))]
    ensures DeletionsCompared(UnreadableLog(), 3) && !Compared(UnreadableLog(), 3, "a")
  {
    var log := UnreadableLog();
    assert Cluster(log, 0) == map[];
    assert Cluster(log, 1) == map["a" := OBJECT_A];
    assert Cluster(log, 2) == map["a" := Object("a", "u", 6, None)];
    assert ApplicableAt(log, 0) && ApplicableAt(log, 1) && ApplicableAt(log, 2);
    assert VersionBelow(log, 0, 1) && VersionBelow(log, 0, 2) && VersionBelow(log, 1, 2);
    assert !ComparisonWorks(log[1]);
  }

  /** The first addition is handled and its checker reaches Running. */
  lemma FirstRuns(log: seq<Event>) returns (steps: seq<Step>)
    requires log != [] && log[0] == Added(OBJECT_A)
    ensures IsRun(log, STARTED, steps)
    ensures After(log, STARTED, steps) == System(1, State({"a"}, 5, map["a" := Checker(OBJECT_A, false, Running)]))
  {
    var c := Checker(OBJECT_A, false, Unknown);
    var y0 := System(1, State({"a"}, 5, map["a" := c]));
    OneStep(log, STARTED, HandleNext(true), y0);
    steps := [HandleNext(true)];
    RunExtends(log, STARTED, steps, Finish("a", Running),
               System(1, State({"a"}, 5, map["a" := c.(status := Running)])));
    steps := steps + [Finish("a", Running)];
  }

  lemma OneRunningCounts(c: Checker, objects: map<string, Object>, o: Object)
    requires c.status.Running? && objects == map[o.key := o]
    ensures CountsSucceed(map["a" := c], |objects.Keys|)
  {
    assert WithStatus(map["a" := c], Running) == {"a"};
    assert objects.Keys == {o.key};
  }

  lemma UnreadableRun(log: seq<Event>) returns (steps: seq<Step>)
    requires log == UnreadableLog()
    ensures IsRun(log, STARTED, steps)
    ensures After(log, STARTED, steps) == System(3, State({"a"}, 7, map["a" := Checker(OBJECT_A, false, Running)]))
  {
    var c := map["a" := Checker(OBJECT_A, false, Running)];
    steps := FirstRuns(log);
    RunExtends(log, STARTED, steps, HandleNext(true), System(2, State({"a"}, 6, c)));
    steps := steps + [HandleNext(true)];
    RunExtends(log, STARTED, steps, HandleNext(true), System(3, State({"a"}, 7, c)));
    steps := steps + [HandleNext(true)];
  }

  /**
   * The handler fails on two updates, and the count does not notice: barrier open for the LIST at
   * the end, success, although the only checker is for a spec the object no longer has.
   */
  lemma FailedComparisonGoesUnnoticed() returns (log: seq<Event>, steps: seq<Step>)
    ensures WellFormed(log, 1) && |log| == 3 && IsRun(log, STARTED, steps)
    ensures var y := After(log, STARTED, steps);
      && y.pos == 3 && DeletionsCompared(log, 3) && !Compared(log, 3, "a")
      && BarrierOpen(y.s, Cluster(log, 3).Keys, 7) && CountsSucceed(y.s.checkers, |Cluster(log, 3).Keys|)
      && "a" in Cluster(log, 3) && "a" in y.s.checkers && y.s.checkers["a"].target.spec != Cluster(log, 3)["a"].spec
  {
    log := UnreadableLog();
    UnreadableLogWellFormed();
    steps := UnreadableRun(log);
    OneRunningCounts(Checker(OBJECT_A, false, Running), Cluster(log, 3), Object("a", "u", 7, Some("y")));
  }

  /** Objects "a" and "b" are added; "a" is then deleted in a version whose spec cannot be read. */
  ghost function UnreadableDeletionLog(): seq<Event> {
    [Added(OBJECT_A), Added(OBJECT_B), Deleted(Object("a", "u", 7, None))]
  }

  lemma UnreadableDeletionLogWellFormed()
    ensures WellFormed(UnreadableDeletionLog(), 2)
    ensures Cluster(UnreadableDeletionLog(), 3) == map["b" := OBJECT_B]
    ensures !DeletionsCompared(UnreadableDeletionLog(), 3)
  {
    var log := UnreadableDeletionLog();
    assert Cluster(log, 0) == map[];
    assert Cluster(log, 1) == map["a" := OBJECT_A];
    assert Cluster(log, 2) == map["a" := OBJECT_A, "b" := OBJECT_B];
    assert ApplicableAt(log, 0) && ApplicableAt(log, 1) && ApplicableAt(log, 2);
    assert VersionBelow(log, 0, 2) && VersionBelow(log, 1, 2);
    assert log[2].Deleted? && !ComparisonWorks(log[2]);
  }

  lemma UnreadableDeletionRun(log: seq<Event>) returns (steps: seq<Step>)
    requires log == UnreadableDeletionLog()
    ensures IsRun(log, STARTED, steps)
    ensures After(log, STARTED, steps) == System(3, State({"b"}, 7, map["a" := Checker(OBJECT_A, false, Running)]))
  {
    var c := map["a" := Checker(OBJECT_A, false, Running)];
    steps := FirstRuns(log);
    RunExtends(log, STARTED, steps, HandleNext(false), System(2, State({"a", "b"}, 6, c)));
    steps := steps + [HandleNext(false)];
    RunExtends(log, STARTED, steps, HandleNext(true), System(3, State({"b"}, 7, c)));
    steps := steps + [HandleNext(true)];
  }

  /** A failed comparison on a deletion leaves a running checker, which makes up for "b" that never ran. */
  lemma FailedDeletionFakesSuccess() returns (log: seq<Event>, steps: seq<Step>)
    ensures WellFormed(log, 2) && |log| == 3 && IsRun(log, STARTED, steps)
    ensures var y := After(log, STARTED, steps);
      && y.pos == 3 && !DeletionsCompared(log, 3)
      && BarrierOpen(y.s, Cluster(log, 3).Keys, 6) && CountsSucceed(y.s.checkers, |Cluster(log, 3).Keys|)
      && "b" in Cluster(log, 3) && "b" !in y.s.checkers
  {
    log := UnreadableDeletionLog();
    UnreadableDeletionLogWellFormed();
    steps := UnreadableDeletionRun(log);
    OneRunningCounts(Checker(OBJECT_A, false, Running), Cluster(log, 3), OBJECT_B);
  }
}
