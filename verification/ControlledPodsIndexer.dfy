/**
 * The index that answers "which pods does this controller own?" (deployments own
 * pods through replica sets).  Two informers feed it; a replica set that has been
 * deleted stays indexed until the last pod that names it is gone.
 *
 * The pod store, the notification queue, the replica-set index and the set of
 * pending deletions evolve under any interleaving of the steps below.  The lock
 * guards the clearing procedure only, so its three effects are separate steps.
 */
module ControlledPodsIndexer {
  import opened Common

  type UID = string

  datatype Pod = Pod(key: string, controller: Option<UID>)
  datatype ReplicaSet = ReplicaSet(uid: UID, controller: Option<UID>)
  datatype Kind = Deployment | OtherController

  /** Controller UID as the handlers see it: the empty string when there is none. */
  function ControllerUID(p: Pod): UID {
    if p.controller.Some? then p.controller.value else ""
  }

  /** The controllerUID index of the pod store. */
  function PodsOf(pods: map<string, Pod>, uid: UID): set<Pod> {
    set k | k in pods && pods[k].controller == Some(uid) :: pods[k]
  }

  /** The controllerUID index of a replica-set store. */
  function ReplicaSetsOf(rs: map<UID, ReplicaSet>, deployment: UID): set<UID> {
    set u | u in rs && rs[u].controller == Some(deployment)
  }

  /** Pods reached from a deployment by joining twice on the controller UID. */
  ghost predicate Joined(pods: map<string, Pod>, rs: map<UID, ReplicaSet>, deployment: UID, p: Pod) {
    && p.key in pods && pods[p.key] == p
    && p.controller.Some? && p.controller.value in rs
    && rs[p.controller.value].controller == Some(deployment)
  }

  ghost predicate Owned(pods: map<string, Pod>, rs: map<UID, ReplicaSet>, kind: Kind, uid: UID, p: Pod) {
    if kind.Deployment? then Joined(pods, rs, uid, p)
    else p.key in pods && pods[p.key] == p && p.controller == Some(uid)
  }

  ghost predicate Keyed(pods: map<string, Pod>, rs: map<UID, ReplicaSet>) {
    && (forall k :: k in pods ==> pods[k].key == k)
    && (forall u :: u in rs ==> rs[u].uid == u)
  }

  // ------------------------------------------------------- the indexer object

  /** What one uninterrupted run of the clearing procedure does to (index, pending). */
  function Cleared(pods: map<string, Pod>, rs: map<UID, ReplicaSet>, pending: set<UID>, uid: UID)
    : (map<UID, ReplicaSet>, set<UID>)
  {
    if uid !in pending || PodsOf(pods, uid) != {} then (rs, pending)
    else (rs - {uid}, pending - {uid})
  }

  /** The three stores; `pending` holds the keys of the pending-deletion map. */
  datatype Stores = Stores(pods: map<string, Pod>, rs: map<UID, ReplicaSet>, pending: set<UID>)

  /** A change of the pod store, or a notification reaching its handler. */
  datatype Call =
    | StoredPod(p: Pod)
    | RemovedPod(key: string)
    | HandledPodUpdate(before: Pod, after: Pod)
    | HandledPodDelete(before: Pod)
    | Upserted(r: ReplicaSet)
    | Deleted(r: ReplicaSet)

  function ClearedStores(s: Stores, uid: UID): Stores {
    var (rs, pending) := Cleared(s.pods, s.rs, s.pending, uid);
    s.(rs := rs, pending := pending)
  }

  function AfterCall(s: Stores, c: Call): Stores {
    match c
    case StoredPod(p) => s.(pods := s.pods[p.key := p])
    case RemovedPod(key) => s.(pods := s.pods - {key})
    case HandledPodUpdate(o, p) =>
      if ControllerUID(o) == ControllerUID(p) then s else ClearedStores(s, ControllerUID(o))
    case HandledPodDelete(o) => ClearedStores(s, ControllerUID(o))
    case Upserted(r) => s.(rs := s.rs[r.uid := r])
    case Deleted(r) => ClearedStores(s.(pending := s.pending + {r.uid}), r.uid)
  }

  class Indexer {
    var podsIndexer: map<string, Pod>
    var rsIndexer: map<UID, ReplicaSet>
    var rsPendingDeletion: map<UID, bool>

    ghost predicate Valid() reads this {
      && Keyed(podsIndexer, rsIndexer)
      && forall u :: u in rsPendingDeletion ==> rsPendingDeletion[u]
    }

    ghost function View(): Stores reads this {
      Stores(podsIndexer, rsIndexer, rsPendingDeletion.Keys)
    }

    constructor ()
      ensures Valid() && View() == Stores(map[], map[], {})
    {
      podsIndexer, rsIndexer, rsPendingDeletion := map[], map[], map[];
    }

    /** The informer's cache stores a pod under its key, before the handler hears of it. */
    method StorePod(p: Pod)
      requires Valid()
      modifies `podsIndexer
      ensures Valid() && View() == AfterCall(old(View()), StoredPod(p))
    {
      podsIndexer := podsIndexer[p.key := p];
    }

    method RemovePod(key: string)
      requires Valid()
      modifies `podsIndexer
      ensures Valid() && View() == AfterCall(old(View()), RemovedPod(key))
    {
      podsIndexer := podsIndexer - {key};
    }

    method ClearRSDataIfPossibleLocked(rsUID: UID)
      requires Valid()
      modifies `rsIndexer, `rsPendingDeletion
      ensures Valid() && View() == ClearedStores(old(View()), rsUID)
    {
      if rsUID !in rsPendingDeletion { return; }
      var pods := AppendPodsControlledBy([], rsUID);
      if |pods| != 0 {
        assert pods[0] in PodsOf(podsIndexer, rsUID);
        return;
      }
      assert PodsOf(podsIndexer, rsUID) == {};
      rsPendingDeletion := rsPendingDeletion - {rsUID};
      if rsUID !in rsIndexer { 
        assert rsIndexer - {rsUID} == rsIndexer;
        return;
      }
      rsIndexer := rsIndexer - {rsUID};
    }

    method OnPodUpdate(oldPod: Pod, newPod: Pod)
      requires Valid()
      modifies `rsIndexer, `rsPendingDeletion
      ensures Valid() && View() == AfterCall(old(View()), HandledPodUpdate(oldPod, newPod))
    {
      if ControllerUID(oldPod) == ControllerUID(newPod) { return; }
      ClearRSDataIfPossibleLocked(ControllerUID(oldPod));
    }

    method OnPodDelete(pod: Pod)
      requires Valid()
      modifies `rsIndexer, `rsPendingDeletion
      ensures Valid() && View() == AfterCall(old(View()), HandledPodDelete(pod))
    {
      ClearRSDataIfPossibleLocked(ControllerUID(pod));
    }

    /** AddFunc and UpdateFunc of the replica-set informer: both overwrite by UID. */
    method OnReplicaSetUpsert(r: ReplicaSet)
      requires Valid()
      modifies `rsIndexer
      ensures Valid() && View() == AfterCall(old(View()), Upserted(r))
    {
      rsIndexer := rsIndexer[r.uid := r];
    }

    method OnReplicaSetDelete(r: ReplicaSet)
      requires Valid()
      modifies `rsIndexer, `rsPendingDeletion
      ensures Valid() && View() == AfterCall(old(View()), Deleted(r))
    {
      rsPendingDeletion := rsPendingDeletion[r.uid := true];
      assert rsPendingDeletion.Keys == old(rsPendingDeletion.Keys) + {r.uid};
      ClearRSDataIfPossibleLocked(r.uid);
    }

    /** Appends the pods of one controller, in whatever order the store lists them. */
    method AppendPodsControlledBy(res: seq<Pod>, uid: UID) returns (r: seq<Pod>)
      requires Valid()
      ensures exists tail ::
        r == res + tail && Distinct(tail) && forall p :: p in tail <==> p in PodsOf(podsIndexer, uid)
    {
      var tail: seq<Pod> := [];
      var left := PodsOf(podsIndexer, uid);
      while left != {}
        invariant left <= PodsOf(podsIndexer, uid)
        invariant Distinct(tail)
        invariant forall p :: p in tail <==> p in PodsOf(podsIndexer, uid) - left
        decreases left
      {
        var p :| p in left;
        assert p !in tail;
        tail := tail + [p];
        left := left - {p};
      }
      r := res + tail;
    }

    /** Every owned pod exactly once, and nothing else. */
    method PodsControlledBy(kind: Kind, uid: UID) returns (res: seq<Pod>)
      requires Valid()
      ensures Distinct(res)
      ensures forall p :: p in res <==> Owned(podsIndexer, rsIndexer, kind, uid, p)
    {
      var owners := if kind.Deployment? then ReplicaSetsOf(rsIndexer, uid) else {uid};
      var left := owners;
      res := [];
      while left != {}
        invariant left <= owners
        invariant Distinct(res)
        invariant forall p :: p in res <==>
          p.key in podsIndexer && podsIndexer[p.key] == p && p.controller.Some? && p.controller.value in owners - left
        decreases left
      {
        var owner :| owner in left;
        var more := AppendPodsControlledBy(res, owner);
        ghost var tail :| more == res + tail && Distinct(tail)
                       && forall p :: p in tail <==> p in PodsOf(podsIndexer, owner);
        forall p ensures p in tail <==> p.key in podsIndexer && podsIndexer[p.key] == p && p.controller == Some(owner) {
        }
        forall p | p in res && p in tail ensures false {}
        res := more;
        left := left - {owner};
      }
    }
  }

  // ------------------------------------------------------- any sequence of calls

  /** The stores after the first n calls on a new indexer. */
  ghost function StoresAfter(calls: seq<Call>, n: nat): Stores
    requires n <= |calls|
  {
    if n == 0 then Stores(map[], map[], {}) else AfterCall(StoresAfter(calls, n - 1), calls[n - 1])
  }

  ghost predicate ChangesPod(c: Call, key: string) {
    (c.StoredPod? && c.p.key == key) || (c.RemovedPod? && c.key == key)
  }

  /** p was stored, and nothing happened to its key since. */
  ghost predicate InStore(calls: seq<Call>, n: nat, p: Pod)
    requires n <= |calls|
  {
    exists i :: 0 <= i < n && calls[i] == StoredPod(p) && forall j :: i < j < n ==> !ChangesPod(calls[j], p.key)
  }

  /** A pod in the store names the controller. */
  ghost predicate Needed(calls: seq<Call>, n: nat, u: UID)
    requires n <= |calls|
  {
    exists p :: InStore(calls, n, p) && p.controller == Some(u)
  }

  ghost predicate Upserts(c: Call, u: UID) { c.Upserted? && c.r.uid == u }

  ghost predicate Deletes(c: Call, u: UID) { c.Deleted? && c.r.uid == u }

  /** r is the replica set last added or updated under u. */
  ghost predicate LastUpserted(calls: seq<Call>, n: nat, u: UID, r: ReplicaSet)
    requires n <= |calls|
  {
    exists i :: 0 <= i < n && calls[i] == Upserted(r) && r.uid == u && forall j :: i < j < n ==> !Upserts(calls[j], u)
  }

  ghost predicate DeletedBefore(calls: seq<Call>, n: nat, u: UID)
    requires n <= |calls|
  {
    exists i :: 0 <= i < n && Deletes(calls[i], u)
  }

  /** Handlers take a missing controller for the empty UID. */
  ghost predicate Names(p: Pod, u: UID) {
    p.controller == Some(u) || (p.controller.None? && u == "")
  }

  /** The call gives a reason to look whether u is still needed. */
  ghost predicate Reconsiders(c: Call, u: UID) {
    match c
    case HandledPodUpdate(o, p) => Names(o, u) && !Names(p, u)
    case HandledPodDelete(o) => Names(o, u)
    case Deleted(r) => r.uid == u
    case _ => false
  }

  ghost predicate DropsAt(calls: seq<Call>, t: nat, u: UID)
    requires t < |calls|
  {
    Reconsiders(calls[t], u) && DeletedBefore(calls, t + 1, u) && !Needed(calls, t, u)
  }

  /** At some call u was reconsidered, had been deleted, and no stored pod named it. */
  ghost predicate Dropped(calls: seq<Call>, n: nat, u: UID)
    requires n <= |calls|
  {
    exists t: nat :: t < n && DropsAt(calls, t, u)
  }

  /** A deleted replica set is not added or updated again. */
  ghost predicate NoRevival(calls: seq<Call>, n: nat, u: UID)
    requires n <= |calls|
  {
    forall i, j :: 0 <= i < j < n && Deletes(calls[i], u) ==> !Upserts(calls[j], u)
  }

  lemma InStoreStep(calls: seq<Call>, n: nat, p: Pod)
    requires n < |calls|
    ensures InStore(calls, n + 1, p)
       <==> calls[n] == StoredPod(p) || (InStore(calls, n, p) && !ChangesPod(calls[n], p.key))
  {
    if InStore(calls, n, p) && !ChangesPod(calls[n], p.key) {
      var i :| 0 <= i < n && calls[i] == StoredPod(p) && forall j :: i < j < n ==> !ChangesPod(calls[j], p.key);
      assert calls[i] == StoredPod(p) && forall j :: i < j < n + 1 ==> !ChangesPod(calls[j], p.key);
    }
    if InStore(calls, n + 1, p) {
      var i :| 0 <= i < n + 1 && calls[i] == StoredPod(p) && forall j :: i < j < n + 1 ==> !ChangesPod(calls[j], p.key);
      assert i < n ==> !ChangesPod(calls[n], p.key);
    }
  }

  /** The pod store holds, under each key, what was last stored there. */
  lemma {:induction false} StoreIsHistory(calls: seq<Call>, n: nat, p: Pod)
    requires n <= |calls|
    ensures var pods := StoresAfter(calls, n).pods;
      && (InStore(calls, n, p) <==> p.key in pods && pods[p.key] == p)
      && forall k :: k in pods ==> pods[k].key == k
  {
    if n > 0 {
      StoreIsHistory(calls, n - 1, p);
      InStoreStep(calls, n - 1, p);
    }
  }

  lemma NeededIsOwning(calls: seq<Call>, n: nat, u: UID)
    requires n <= |calls|
    ensures Needed(calls, n, u) <==> PodsOf(StoresAfter(calls, n).pods, u) != {}
  {
    var pods := StoresAfter(calls, n).pods;
    if Needed(calls, n, u) {
      var p :| InStore(calls, n, p) && p.controller == Some(u);
      StoreIsHistory(calls, n, p);
      assert p in PodsOf(pods, u);
    }
    if PodsOf(pods, u) != {} {
      var p :| p in PodsOf(pods, u);
      StoreIsHistory(calls, n, p);
    }
  }

  lemma HistoryStep(calls: seq<Call>, n: nat, u: UID)
    requires n < |calls|
    ensures DeletedBefore(calls, n + 1, u) <==> DeletedBefore(calls, n, u) || Deletes(calls[n], u)
    ensures Dropped(calls, n + 1, u) <==> Dropped(calls, n, u) || DropsAt(calls, n, u)
    ensures Dropped(calls, n, u) ==> DeletedBefore(calls, n, u)
  {
    if Dropped(calls, n, u) {
      var t: nat :| t < n && DropsAt(calls, t, u);
      var i :| 0 <= i < t + 1 && Deletes(calls[i], u);
    }
  }

  lemma LastUpsertedStep(calls: seq<Call>, n: nat, u: UID, r: ReplicaSet)
    requires n < |calls|
    ensures LastUpserted(calls, n + 1, u, r)
       <==> if Upserts(calls[n], u) then calls[n].r == r else LastUpserted(calls, n, u, r)
  {
    if LastUpserted(calls, n, u, r) && !Upserts(calls[n], u) {
      var i :| 0 <= i < n && calls[i] == Upserted(r) && r.uid == u && forall j :: i < j < n ==> !Upserts(calls[j], u);
      assert calls[i] == Upserted(r) && forall j :: i < j < n + 1 ==> !Upserts(calls[j], u);
    }
    if Upserts(calls[n], u) && calls[n].r == r {
      assert calls[n] == Upserted(r);
    }
  }

  ghost predicate Held(s: Stores, u: UID, r: ReplicaSet) {
    u in s.rs && s.rs[u] == r
  }

  /** What one call does to one replica set. */
  lemma CallEffect(s: Stores, c: Call, u: UID, r: ReplicaSet)
    ensures var s' := AfterCall(s, c);
      if Upserts(c, u) then
        (Held(s', u, r) <==> c.r == r) && (u in s'.pending <==> u in s.pending)
      else if Reconsiders(c, u) && (u in s.pending || Deletes(c, u)) && PodsOf(s.pods, u) == {} then
        u !in s'.rs && u !in s'.pending
      else
        (Held(s', u, r) <==> Held(s, u, r)) && (u in s'.pending <==> u in s.pending || Deletes(c, u))
  {
  }

  /** One call, given what the history says before it: deleted, dropped, and needed now. */
  lemma PendingStep(s: Stores, c: Call, u: UID, deleted: bool, dropped: bool, needed: bool)
    requires (u in s.pending ==> deleted) && (deleted && !dropped ==> u in s.pending)
    requires needed <==> PodsOf(s.pods, u) != {}
    ensures var deleted' := deleted || Deletes(c, u);
      var dropped' := dropped || (Reconsiders(c, u) && deleted' && !needed);
      var pending := u in AfterCall(s, c).pending;
      (pending ==> deleted') && (deleted' && !dropped' ==> pending)
  {
    CallEffect(s, c, u, ReplicaSet(u, None));
  }

  /** Likewise for the index; `last` says whether r was the last value before the call. */
  lemma HeldStep(s: Stores, c: Call, u: UID, r: ReplicaSet, last: bool, deleted: bool, dropped: bool, needed: bool)
    requires Held(s, u, r) <==> last && !dropped
    requires (u in s.pending ==> deleted) && (deleted && !dropped ==> u in s.pending)
    requires (dropped ==> deleted) && (deleted ==> !Upserts(c, u))
    requires needed <==> PodsOf(s.pods, u) != {}
    ensures Held(AfterCall(s, c), u, r) <==>
      && (if Upserts(c, u) then c.r == r else last)
      && !(dropped || (Reconsiders(c, u) && (deleted || Deletes(c, u)) && !needed))
  {
    CallEffect(s, c, u, r);
  }

  /** Pending are the deleted replica sets that were needed whenever they were reconsidered. */
  lemma {:induction false} PendingIsHistory(calls: seq<Call>, n: nat, u: UID)
    requires n <= |calls|
    ensures u in StoresAfter(calls, n).pending ==> DeletedBefore(calls, n, u)
    ensures DeletedBefore(calls, n, u) && !Dropped(calls, n, u) ==> u in StoresAfter(calls, n).pending
  {
    if n > 0 {
      var m := n - 1;
      PendingIsHistory(calls, m, u);
      HistoryStep(calls, m, u);
      NeededIsOwning(calls, m, u);
      PendingStep(StoresAfter(calls, m), calls[m], u, DeletedBefore(calls, m, u), Dropped(calls, m, u),
                  Needed(calls, m, u));
    }
  }

  lemma RevivalStep(calls: seq<Call>, n: nat, u: UID)
    requires n < |calls| && NoRevival(calls, n + 1, u)
    ensures NoRevival(calls, n, u) && (DeletedBefore(calls, n, u) ==> !Upserts(calls[n], u))
  {
  }

  /**
   * Any calls on one indexer: it holds a replica set exactly as last added or updated, from then on
   * until, once deleted, it is reconsidered while no stored pod names it.
   */
  lemma {:induction false} IndexIsHistory(calls: seq<Call>, n: nat, u: UID, r: ReplicaSet)
    requires n <= |calls| && NoRevival(calls, n, u)
    ensures Held(StoresAfter(calls, n), u, r) <==> LastUpserted(calls, n, u, r) && !Dropped(calls, n, u)
  {
    if n > 0 {
      var m := n - 1;
      RevivalStep(calls, m, u);
      IndexIsHistory(calls, m, u, r);
      LastUpsertedStep(calls, m, u, r);
      HistoryStep(calls, m, u);
      PendingIsHistory(calls, m, u);
      NeededIsOwning(calls, m, u);
      HeldStep(StoresAfter(calls, m), calls[m], u, r, LastUpserted(calls, m, u, r), DeletedBefore(calls, m, u),
               Dropped(calls, m, u), Needed(calls, m, u));
    }
  }

  /** In particular: one that was never deleted is held, and so is a deleted one that a stored pod always named. */
  lemma LiveAndNeededAreHeld(calls: seq<Call>, n: nat, u: UID, r: ReplicaSet)
    requires n <= |calls| && NoRevival(calls, n, u) && LastUpserted(calls, n, u, r)
    requires forall t: nat :: t < n && DeletedBefore(calls, t + 1, u) ==> Needed(calls, t, u)
    ensures Held(StoresAfter(calls, n), u, r)
  {
    IndexIsHistory(calls, n, u, r);
  }

  // ------------------------------------------------------- the concurrent system

  /** Progress of the one thread that may be inside the clearing procedure. */
  datatype Lock = Free | Checking(uid: UID) | FoundEmpty(uid: UID) | Unmarked(uid: UID)

  datatype Notification = PodAdded(pod: Pod) | PodUpdated(before: Pod, after: Pod) | PodDeleted(before: Pod)

  /**
   * `pods` to `lock` are the program's state.  `seen` is the reference index that
   * never forgets; `deleted` and `cleared` record which replica sets the informer
   * reported deleted and which were dropped from the index.
   */
  datatype World = World(
    pods: map<string, Pod>,
    queue: seq<Notification>,
    rs: map<UID, ReplicaSet>,
    pending: set<UID>,
    lock: Lock,
    seen: map<UID, ReplicaSet>,
    deleted: set<UID>,
    cleared: set<UID>)

  const INITIAL := World(map[], [], map[], {}, Free, map[], {}, {})

  datatype Step =
    | StorePod(p: Pod)          // the pod store changes, its notification is queued
    | RemovePod(key: string)
    | DeliverPod                // the oldest pod notification reaches its handler
    | AddReplicaSet(r: ReplicaSet)
    | UpdateReplicaSet(r: ReplicaSet)
    | DeleteReplicaSet(uid: UID)
    | ReadPods                  // clearing: look for pods that still name the UID
    | Unmark                    // clearing: forget the pending mark
    | DropReplicaSet            // clearing: remove the replica set, release the lock

  /** The controller a notification asks to clear, if it asks at all. */
  function ClearTarget(n: Notification): Option<UID> {
    match n
    case PodAdded(_) => None
    case PodUpdated(o, p) => if ControllerUID(o) == ControllerUID(p) then None else Some(ControllerUID(o))
    case PodDeleted(o) => Some(ControllerUID(o))
  }

  /** When a step can happen: informer guarantees for replica sets, and the lock. */
  predicate Enabled(w: World, s: Step) {
    match s
    case StorePod(_) => true
    case RemovePod(key) => key in w.pods
    case DeliverPod => w.queue != [] && (ClearTarget(w.queue[0]).Some? ==> w.lock.Free?)
    case AddReplicaSet(r) => r.uid != "" && r.uid !in w.seen
    case UpdateReplicaSet(r) => r.uid in w.seen && r.uid !in w.deleted
    case DeleteReplicaSet(uid) => uid in w.seen && uid !in w.deleted && w.lock.Free?
    case ReadPods => w.lock.Checking?
    case Unmark => w.lock.FoundEmpty?
    case DropReplicaSet => w.lock.Unmarked?
  }

  function Apply(w: World, s: Step): World
    requires Enabled(w, s)
  {
    match s
    case StorePod(p) =>
      var n := if p.key in w.pods then PodUpdated(w.pods[p.key], p) else PodAdded(p);
      w.(pods := w.pods[p.key := p], queue := w.queue + [n])
    case RemovePod(key) =>
      w.(pods := w.pods - {key}, queue := w.queue + [PodDeleted(w.pods[key])])
    case DeliverPod =>
      var t := ClearTarget(w.queue[0]);
      w.(queue := w.queue[1..],
         lock := if t.Some? && t.value in w.pending then Checking(t.value) else w.lock)
    case AddReplicaSet(r) => w.(rs := w.rs[r.uid := r], seen := w.seen[r.uid := r])
    case UpdateReplicaSet(r) => w.(rs := w.rs[r.uid := r], seen := w.seen[r.uid := r])
    case DeleteReplicaSet(uid) =>
      w.(pending := w.pending + {uid}, deleted := w.deleted + {uid}, lock := Checking(uid))
    case ReadPods =>
      w.(lock := if PodsOf(w.pods, w.lock.uid) == {} then FoundEmpty(w.lock.uid) else Free)
    case Unmark => w.(pending := w.pending - {w.lock.uid}, lock := Unmarked(w.lock.uid))
    case DropReplicaSet =>
      w.(rs := w.rs - {w.lock.uid}, cleared := w.cleared + {w.lock.uid}, lock := Free)
  }

  ghost predicate IsRun(w: World, steps: seq<Step>)
    decreases |steps|
  {
    steps == [] || (Enabled(w, steps[0]) && IsRun(Apply(w, steps[0]), steps[1..]))
  }

  ghost function After(w: World, steps: seq<Step>): World
    requires IsRun(w, steps)
    decreases |steps|
  {
    if steps == [] then w else After(Apply(w, steps[0]), steps[1..])
  }

  // ------------------------------------------------------- invariants

  function BeingDropped(l: Lock): set<UID> {
    if l.Unmarked? then {l.uid} else {}
  }

  /** Index contents against the reference index. */
  ghost predicate IndexInv(w: World) {
    && Keyed(w.pods, w.seen)
    && "" !in w.seen
    && w.pending <= w.deleted <= w.seen.Keys
    && w.rs.Keys == w.seen.Keys - w.cleared
    && (forall u :: u in w.rs ==> w.rs[u] == w.seen[u])
    && w.deleted == w.pending + w.cleared + BeingDropped(w.lock)
    && w.pending !! w.cleared
    && (w.lock.Checking? || w.lock.FoundEmpty? ==> w.lock.uid in w.pending)
    && (w.lock.Unmarked? ==> w.lock.uid !in w.pending + w.cleared)
  }

  ghost predicate OwnsPod(w: World, u: UID) {
    exists k :: k in w.pods && w.pods[k].controller == Some(u)
  }

  ghost predicate Queued(w: World, u: UID) {
    exists i :: 0 <= i < |w.queue| && ClearTarget(w.queue[i]) == Some(u)
  }

  /** Somebody will look again at every pending replica set. */
  ghost predicate NoLeakInv(w: World) {
    forall u :: u in w.pending ==>
      OwnsPod(w, u) || Queued(w, u) || w.lock == Checking(u) || w.lock == FoundEmpty(u)
  }

  lemma StepKeepsIndexInv(w: World, s: Step)
    requires IndexInv(w) && Enabled(w, s)
    ensures IndexInv(Apply(w, s))
  {
  }

  lemma QueueGrows(w: World, w': World, n: Notification, u: UID)
    requires w'.queue == w.queue + [n]
    ensures Queued(w, u) ==> Queued(w', u)
    ensures ClearTarget(n) == Some(u) ==> Queued(w', u)
  {
    if Queued(w, u) {
      var i :| 0 <= i < |w.queue| && ClearTarget(w.queue[i]) == Some(u);
      assert w'.queue[i] == w.queue[i];
    }
    assert w'.queue[|w.queue|] == n;
  }

  lemma StepKeepsNoLeak(w: World, s: Step)
    requires IndexInv(w) && NoLeakInv(w) && Enabled(w, s)
    ensures NoLeakInv(Apply(w, s))
  {
    var w' := Apply(w, s);
    forall u | u in w'.pending
      ensures OwnsPod(w', u) || Queued(w', u) || w'.lock == Checking(u) || w'.lock == FoundEmpty(u)
    {
      match s
      case StorePod(p) =>
        QueueGrows(w, w', w'.queue[|w.queue|], u);
        if OwnsPod(w, u) {
          var k :| k in w.pods && w.pods[k].controller == Some(u);
          if k != p.key { assert w'.pods[k] == w.pods[k]; }
          else if p.controller == Some(u) { assert w'.pods[k] == p; }
        }
      case RemovePod(key) =>
        QueueGrows(w, w', PodDeleted(w.pods[key]), u);
        if OwnsPod(w, u) {
          var k :| k in w.pods && w.pods[k].controller == Some(u);
          if k != key { assert w'.pods[k] == w.pods[k]; }
        }
      case DeliverPod =>
        if Queued(w, u) {
          var i :| 0 <= i < |w.queue| && ClearTarget(w.queue[i]) == Some(u);
          if i > 0 { assert w'.queue[i - 1] == w.queue[i]; }
        }
      case ReadPods =>
        if u == w.lock.uid && PodsOf(w.pods, u) != {} {
          var p :| p in PodsOf(w.pods, u);
        }
      case _ =>
    }
  }

  lemma {:induction false} RunKeepsInv(w: World, steps: seq<Step>)
    requires IndexInv(w) && NoLeakInv(w) && IsRun(w, steps)
    ensures IndexInv(After(w, steps)) && NoLeakInv(After(w, steps))
    decreases |steps|
  {
    if steps != [] {
      StepKeepsIndexInv(w, steps[0]);
      StepKeepsNoLeak(w, steps[0]);
      RunKeepsInv(Apply(w, steps[0]), steps[1..]);
    }
  }

  // ------------------------------------------------------- main results

  /**
   * Every run, no assumption about pods: the index answers exactly what the index
   * that never forgets answers, minus the pods whose replica set was dropped.
   */
  lemma AnswersAreReferenceMinusDropped(steps: seq<Step>, deployment: UID, p: Pod)
    requires IsRun(INITIAL, steps)
    ensures var w := After(INITIAL, steps);
      Joined(w.pods, w.rs, deployment, p)
      <==> Joined(w.pods, w.seen, deployment, p) && p.controller.value !in w.cleared
  {
    RunKeepsInv(INITIAL, steps);
  }

  /** A pod-store change that makes a pod name a controller it did not name before. */
  predicate Adopts(w: World, s: Step, u: UID) {
    s.StorePod? && s.p.controller == Some(u)
    && !(s.p.key in w.pods && w.pods[s.p.key].controller == Some(u))
  }

  /** Replica sets already seen empty by a clearing run. */
  function SeenEmpty(w: World): set<UID> {
    w.cleared + (if w.lock.FoundEmpty? || w.lock.Unmarked? then {w.lock.uid} else {})
  }

  /** No pod ever adopts a replica set after that replica set was found empty. */
  ghost predicate NoLateAdoption(w: World, steps: seq<Step>)
    requires IsRun(w, steps)
    decreases |steps|
  {
    steps != [] ==>
      && (forall u :: u in SeenEmpty(w) ==> !Adopts(w, steps[0], u))
      && NoLateAdoption(Apply(w, steps[0]), steps[1..])
  }

  ghost predicate NoOrphans(w: World) {
    forall k :: k in w.pods && w.pods[k].controller.Some? ==> w.pods[k].controller.value !in SeenEmpty(w)
  }

  lemma PodsOfMember(pods: map<string, Pod>, k: string, u: UID)
    requires k in pods
    ensures pods[k].controller == Some(u) ==> pods[k] in PodsOf(pods, u)
  {
  }

  lemma StepKeepsNoOrphans(w: World, s: Step)
    requires IndexInv(w) && NoOrphans(w) && Enabled(w, s)
    requires forall u :: u in SeenEmpty(w) ==> !Adopts(w, s, u)
    ensures NoOrphans(Apply(w, s))
  {
    forall k, u | k in w.pods { PodsOfMember(w.pods, k, u); }
    forall u | u in SeenEmpty(w) ensures s.StorePod? ==> s.p.controller != Some(u) {
      assert !Adopts(w, s, u);
    }
  }

  lemma {:induction false} RunKeepsNoOrphans(w: World, steps: seq<Step>)
    requires IndexInv(w) && NoOrphans(w) && IsRun(w, steps) && NoLateAdoption(w, steps)
    ensures NoOrphans(After(w, steps))
    decreases |steps|
  {
    if steps != [] {
      StepKeepsIndexInv(w, steps[0]);
      StepKeepsNoOrphans(w, steps[0]);
      RunKeepsNoOrphans(Apply(w, steps[0]), steps[1..]);
    }
  }

  lemma NoOrphansMeansExact(w: World, kind: Kind, uid: UID, p: Pod)
    requires IndexInv(w) && NoOrphans(w)
    ensures Owned(w.pods, w.rs, kind, uid, p) <==> Owned(w.pods, w.seen, kind, uid, p)
  {
  }

  /** Refinement of the never-forgetting index, in every state of every run without late adoption. */
  lemma RefinesNeverForgetting(steps: seq<Step>, kind: Kind, uid: UID, p: Pod)
    requires IsRun(INITIAL, steps) && NoLateAdoption(INITIAL, steps)
    ensures var w := After(INITIAL, steps);
      Owned(w.pods, w.rs, kind, uid, p) <==> Owned(w.pods, w.seen, kind, uid, p)
  {
    RunKeepsInv(INITIAL, steps);
    RunKeepsNoOrphans(INITIAL, steps);
    NoOrphansMeansExact(After(INITIAL, steps), kind, uid, p);
  }

  /** A stored pod names a replica set of the deployment that the index has dropped. */
  ghost predicate Orphaned(w: World, deployment: UID, key: string) {
    && key in w.pods && w.pods[key].controller.Some?
    && w.pods[key].controller.value in w.cleared
    && w.pods[key].controller.value in w.seen
    && w.seen[w.pods[key].controller.value].controller == Some(deployment)
  }

  /** Exactly when a deployment's answer is the reference answer. */
  lemma AnswerExactIffNoOrphan(steps: seq<Step>, deployment: UID)
    requires IsRun(INITIAL, steps)
    ensures var w := After(INITIAL, steps);
      (forall p :: Joined(w.pods, w.rs, deployment, p) <==> Joined(w.pods, w.seen, deployment, p))
      <==> !exists k :: Orphaned(w, deployment, k)
  {
    RunKeepsInv(INITIAL, steps);
    var w := After(INITIAL, steps);
    if exists k :: Orphaned(w, deployment, k) {
      var k :| Orphaned(w, deployment, k);
      assert Joined(w.pods, w.seen, deployment, w.pods[k]);
      assert !Joined(w.pods, w.rs, deployment, w.pods[k]);
    }
    forall p | Joined(w.pods, w.seen, deployment, p) && !Joined(w.pods, w.rs, deployment, p)
      ensures Orphaned(w, deployment, p.key)
    {
    }
  }

  /** Every deployment is answered as the never-forgetting index would. */
  ghost predicate Exact(w: World) {
    forall d, p :: Joined(w.pods, w.rs, d, p) <==> Joined(w.pods, w.seen, d, p)
  }

  ghost predicate ExactThroughout(w: World, steps: seq<Step>)
    requires IsRun(w, steps)
    decreases |steps|
  {
    Exact(w) && (steps != [] ==> ExactThroughout(Apply(w, steps[0]), steps[1..]))
  }

  ghost predicate HasController(w: World, u: UID) {
    u in w.seen && w.seen[u].controller.Some?
  }

  /**
   * The steps that lose a pod of some deployment: dropping a replica set that a stored pod still
   * names, and storing a pod that names one dropped by an earlier step.
   */
  ghost predicate Loses(w: World, s: Step) {
    match s
    case DropReplicaSet => w.lock.Unmarked? && HasController(w, w.lock.uid) && OwnsPod(w, w.lock.uid)
    case StorePod(p) => p.controller.Some? && p.controller.value in w.cleared && HasController(w, p.controller.value)
    case _ => false
  }

  ghost predicate NeverLoses(w: World, steps: seq<Step>)
    requires IsRun(w, steps)
    decreases |steps|
  {
    steps != [] ==> !Loses(w, steps[0]) && NeverLoses(Apply(w, steps[0]), steps[1..])
  }

  /** In a state of a run, exact answers mean that no stored pod names a dropped replica set with a controller. */
  lemma ExactIffNoneOrphaned(w: World)
    requires IndexInv(w)
    ensures Exact(w) <==>
      forall k :: k in w.pods && w.pods[k].controller.Some? && w.pods[k].controller.value in w.cleared ==>
        !HasController(w, w.pods[k].controller.value)
  {
    if Exact(w) {
      forall k | k in w.pods && w.pods[k].controller.Some? && w.pods[k].controller.value in w.cleared
        ensures !HasController(w, w.pods[k].controller.value)
      {
        var u := w.pods[k].controller.value;
        assert u in w.seen && u !in w.rs;
        if w.seen[u].controller.Some? {
          assert Joined(w.pods, w.seen, w.seen[u].controller.value, w.pods[k]);
        }
      }
    }
  }

  lemma StepStaysExactIff(w: World, s: Step)
    requires IndexInv(w) && Enabled(w, s) && Exact(w)
    ensures Exact(Apply(w, s)) <==> !Loses(w, s)
  {
    StepKeepsIndexInv(w, s);
    ExactIffNoneOrphaned(w);
    ExactIffNoneOrphaned(Apply(w, s));
    if s.StorePod? { assert s.p.key in Apply(w, s).pods; }
  }

  lemma {:induction false} ExactThroughoutFrom(w: World, steps: seq<Step>)
    requires IndexInv(w) && Exact(w) && IsRun(w, steps)
    ensures ExactThroughout(w, steps) <==> NeverLoses(w, steps)
    decreases |steps|
  {
    if steps != [] {
      StepKeepsIndexInv(w, steps[0]);
      StepStaysExactIff(w, steps[0]);
      if !Loses(w, steps[0]) {
        ExactThroughoutFrom(Apply(w, steps[0]), steps[1..]);
      }
    }
  }

  /** All answers along a run are exact if and only if no step of it loses a pod. */
  lemma AnswersExactIffNothingLost(steps: seq<Step>)
    requires IsRun(INITIAL, steps)
    ensures ExactThroughout(INITIAL, steps) <==> NeverLoses(INITIAL, steps)
  {
    ExactThroughoutFrom(INITIAL, steps);
  }

  /** The failing family is real: a pod that reaches the store after its replica set was dropped is lost. */
  lemma LateAdoptionLosesPod() returns (steps: seq<Step>, p: Pod)
    ensures IsRun(INITIAL, steps)
    ensures var w := After(INITIAL, steps);
      Joined(w.pods, w.seen, "d", p) && !Joined(w.pods, w.rs, "d", p)
  {
    var r := ReplicaSet("rs", Some("d"));
    p := Pod("p", Some("rs"));
    var s0, s1, s2 := AddReplicaSet(r), DeleteReplicaSet("rs"), StorePod(p);
    var w1 := Apply(INITIAL, s0);
    var w2 := Apply(w1, s1);
    assert PodsOf(w2.pods, "rs") == {};
    var w3 := Apply(w2, ReadPods);
    var w4 := Apply(w3, Unmark);
    var w5 := Apply(w4, DropReplicaSet);
    var w6 := Apply(w5, s2);
    var e5: seq<Step> := [s2];
    assert IsRun(w5, e5) && After(w5, e5) == w6 by { assert e5[1..] == []; }
    var e4 := [DropReplicaSet] + e5;
    assert IsRun(w4, e4) && After(w4, e4) == w6 by { assert e4[1..] == e5; }
    var e3 := [Unmark] + e4;
    assert IsRun(w3, e3) && After(w3, e3) == w6 by { assert e3[1..] == e4; }
    var e2 := [ReadPods] + e3;
    assert IsRun(w2, e2) && After(w2, e2) == w6 by { assert e2[1..] == e3; }
    var e1 := [s1] + e2;
    assert IsRun(w1, e1) && After(w1, e1) == w6 by { assert e1[1..] == e2; }
    steps := [s0] + e1;
    assert IsRun(INITIAL, steps) && After(INITIAL, steps) == w6 by { assert steps[1..] == e1; }
  }

  /**
   * No leak, in every run: the index holds the live replica sets, the pending ones
   * and at most the one being dropped; and once notifications are drained and the
   * lock is free, every deleted replica set still indexed owns a pod.
   */
  lemma NoLeak(steps: seq<Step>)
    requires IsRun(INITIAL, steps)
    ensures var w := After(INITIAL, steps);
      && w.rs.Keys == (w.seen.Keys - w.deleted) + w.pending + BeingDropped(w.lock)
      && (w.queue == [] && w.lock.Free? ==> forall u :: u in w.rs && u in w.deleted ==> OwnsPod(w, u))
  {
    RunKeepsInv(INITIAL, steps);
    var w := After(INITIAL, steps);
    if w.queue == [] && w.lock.Free? {
      forall u | u in w.rs && u in w.deleted ensures OwnsPod(w, u) {
        assert !Queued(w, u);
      }
    }
  }

  // ------------------------------------------------------- queries that overlap the steps

  /** A query for a deployment lists its replica sets once, then visits their pods one owner at a time. */
  datatype QueryStep = Other(s: Step) | Visit(owner: UID)

  /** `left` are the owners still to visit. */
  ghost predicate IsQueryRun(w: World, left: set<UID>, steps: seq<QueryStep>)
    decreases |steps|
  {
    if steps == [] then left == {}
    else match steps[0]
      case Other(s) => Enabled(w, s) && IsQueryRun(Apply(w, s), left, steps[1..])
      case Visit(u) => u in left && IsQueryRun(w, left - {u}, steps[1..])
  }

  /** Every pod the query appends, with multiplicity. */
  ghost function Found(w: World, left: set<UID>, steps: seq<QueryStep>): multiset<Pod>
    requires IsQueryRun(w, left, steps)
    decreases |steps|
  {
    if steps == [] then multiset{}
    else match steps[0]
      case Other(s) => Found(Apply(w, s), left, steps[1..])
      case Visit(u) => multiset(PodsOf(w.pods, u)) + Found(w, left - {u}, steps[1..])
  }

  ghost predicate Stored(w: World, p: Pod) {
    p.key in w.pods && w.pods[p.key] == p
  }

  /** p is in the store, unchanged, while the query lasts. */
  ghost predicate StoredThroughout(w: World, left: set<UID>, steps: seq<QueryStep>, p: Pod)
    requires IsQueryRun(w, left, steps)
    decreases |steps|
  {
    Stored(w, p) && (steps != [] ==>
      match steps[0]
      case Other(s) => StoredThroughout(Apply(w, s), left, steps[1..], p)
      case Visit(u) => StoredThroughout(w, left - {u}, steps[1..], p))
  }

  ghost predicate StoredAtSomePoint(w: World, left: set<UID>, steps: seq<QueryStep>, p: Pod)
    requires IsQueryRun(w, left, steps)
    decreases |steps|
  {
    Stored(w, p) || (steps != [] &&
      match steps[0]
      case Other(s) => StoredAtSomePoint(Apply(w, s), left, steps[1..], p)
      case Visit(u) => StoredAtSomePoint(w, left - {u}, steps[1..], p))
  }

  lemma {:induction false} FoundOnceIfStored(w: World, left: set<UID>, steps: seq<QueryStep>, p: Pod)
    requires IsQueryRun(w, left, steps) && Keyed(w.pods, w.seen) && StoredThroughout(w, left, steps, p)
    ensures Found(w, left, steps)[p] == if p.controller.Some? && p.controller.value in left then 1 else 0
    decreases |steps|
  {
    if steps != [] {
      match steps[0]
      case Other(s) => FoundOnceIfStored(Apply(w, s), left, steps[1..], p);
      case Visit(u) =>
        FoundOnceIfStored(w, left - {u}, steps[1..], p);
        assert p in PodsOf(w.pods, u) <==> p.controller == Some(u);
        assert multiset(PodsOf(w.pods, u))[p] == if p in PodsOf(w.pods, u) then 1 else 0;
    }
  }

  lemma {:induction false} FoundWasStored(w: World, left: set<UID>, steps: seq<QueryStep>, p: Pod)
    requires IsQueryRun(w, left, steps) && Keyed(w.pods, w.seen) && p in Found(w, left, steps)
    ensures StoredAtSomePoint(w, left, steps, p) && p.controller.Some? && p.controller.value in left
    decreases |steps|
  {
    match steps[0]
    case Other(s) => FoundWasStored(Apply(w, s), left, steps[1..], p);
    case Visit(u) =>
      if p !in PodsOf(w.pods, u) { FoundWasStored(w, left - {u}, steps[1..], p); }
  }

  /**
   * A query that overlaps any steps, begun in any reachable state without late adoption: a pod
   * stored throughout is returned exactly once if the never-forgetting index would return it at the
   * start and not at all otherwise; and nothing is returned that was not stored at some point.
   */
  lemma OverlappingQuery(before: seq<Step>, deployment: UID, steps: seq<QueryStep>, p: Pod)
    requires IsRun(INITIAL, before) && NoLateAdoption(INITIAL, before)
    requires IsQueryRun(After(INITIAL, before), ReplicaSetsOf(After(INITIAL, before).rs, deployment), steps)
    ensures var w := After(INITIAL, before);
      var owners := ReplicaSetsOf(w.rs, deployment);
      && (StoredThroughout(w, owners, steps, p) ==>
            Found(w, owners, steps)[p] == if Joined(w.pods, w.seen, deployment, p) then 1 else 0)
      && (p in Found(w, owners, steps) ==> StoredAtSomePoint(w, owners, steps, p))
  {
    var w := After(INITIAL, before);
    var owners := ReplicaSetsOf(w.rs, deployment);
    RunKeepsInv(INITIAL, before);
    RefinesNeverForgetting(before, Deployment, deployment, p);
    if StoredThroughout(w, owners, steps, p) {
      FoundOnceIfStored(w, owners, steps, p);
    }
    if p in Found(w, owners, steps) {
      FoundWasStored(w, owners, steps, p);
    }
  }

  // ------------------------------------------------------- uninterrupted handlers

  ghost function ViewOf(w: World): Stores {
    Stores(w.pods, w.rs, w.pending)
  }

  /** The call that the informers may make next. */
  ghost predicate CanBeMade(w: World, c: Call) {
    match c
    case StoredPod(_) => true
    case RemovedPod(key) => key in w.pods
    case HandledPodUpdate(o, p) => w.queue != [] && w.queue[0] == PodUpdated(o, p)
    case HandledPodDelete(o) => w.queue != [] && w.queue[0] == PodDeleted(o)
    case Upserted(r) => if r.uid in w.seen then r.uid !in w.deleted else r.uid != ""
    case Deleted(r) => r.uid in w.seen && r.uid !in w.deleted
  }

  function FirstStep(w: World, c: Call): Step {
    match c
    case StoredPod(p) => StorePod(p)
    case RemovedPod(key) => RemovePod(key)
    case HandledPodUpdate(_, _) => DeliverPod
    case HandledPodDelete(_) => DeliverPod
    case Upserted(r) => if r.uid in w.seen then UpdateReplicaSet(r) else AddReplicaSet(r)
    case Deleted(r) => DeleteReplicaSet(r.uid)
  }

  /** Run without interruption, the steps of a call do what the indexer object does. */
  lemma CallsAreRuns(w: World, c: Call) returns (steps: seq<Step>)
    requires w.lock.Free? && CanBeMade(w, c)
    ensures IsRun(w, steps) && After(w, steps).lock.Free? && ViewOf(After(w, steps)) == AfterCall(ViewOf(w), c)
  {
    var s := FirstStep(w, c);
    var w1 := Apply(w, s);
    var rest := [];
    if w1.lock.Checking? { rest := ClearingIsRun(w1); }
    steps := [s] + rest;
    assert steps[1..] == rest;
  }

  lemma ClearingIsRun(w: World) returns (steps: seq<Step>)
    requires w.lock.Checking? && w.lock.uid in w.pending
    ensures IsRun(w, steps) && After(w, steps).lock.Free?
    ensures ViewOf(After(w, steps)) == ClearedStores(ViewOf(w), w.lock.uid)
  {
    var w1 := Apply(w, ReadPods);
    if w1.lock.Free? {
      steps := [ReadPods];
      assert steps[1..] == [];
    } else {
      steps := [ReadPods, Unmark, DropReplicaSet];
      var w2 := Apply(w1, Unmark);
      assert steps[1..] == [Unmark, DropReplicaSet] && steps[1..][1..] == [DropReplicaSet];
      assert steps[1..][1..][1..] == [];
      assert After(w2, [DropReplicaSet]) == Apply(w2, DropReplicaSet);
    }
  }

  // ------------------------------------------------------- what the reference index is

  /** The step reports replica set r, as added or updated. */
  ghost predicate Reports(s: Step, r: ReplicaSet) {
    s == AddReplicaSet(r) || s == UpdateReplicaSet(r)
  }

  ghost predicate Unreported(steps: seq<Step>, u: UID) {
    forall j, r :: 0 <= j < |steps| && Reports(steps[j], r) ==> r.uid != u
  }

  lemma {:induction false} SeenOnlyIfReported(w: World, steps: seq<Step>, u: UID)
    requires IsRun(w, steps) && Unreported(steps, u)
    ensures u in After(w, steps).seen <==> u in w.seen
    ensures u in w.seen ==> After(w, steps).seen[u] == w.seen[u]
    decreases |steps|
  {
    if steps != [] {
      var s := steps[0];
      assert s.AddReplicaSet? || s.UpdateReplicaSet? ==> Reports(s, s.r);
      SeenOnlyIfReported(Apply(w, s), steps[1..], u);
    }
  }

  /** The never-forgetting index holds what the informer last reported of each replica set. */
  lemma {:induction false} SeenIsLastReported(w: World, steps: seq<Step>, i: nat, r: ReplicaSet)
    requires IsRun(w, steps) && i < |steps| && Reports(steps[i], r) && Unreported(steps[i + 1..], r.uid)
    ensures r.uid in After(w, steps).seen && After(w, steps).seen[r.uid] == r
    decreases |steps|
  {
    if i == 0 {
      SeenOnlyIfReported(Apply(w, steps[0]), steps[1..], r.uid);
    } else {
      assert steps[1..][i..] == steps[i + 1..];
      SeenIsLastReported(Apply(w, steps[0]), steps[1..], i - 1, r);
    }
  }
}
