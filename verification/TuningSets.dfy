/** Validation of tuning sets and of the phases that name them, and the factory that creates them. */
module TuningSets {
  import opened Common

  /** A load with its rate and limit parameters. */
  datatype Load =
    | QPS(qps: real)
    | Randomized(averageQps: real)
    | Stepped(burstSize: int, stepDelay: int)
    | TimeLimited(timeLimit: int)
    | RandomizedTimeLimited(timeLimit: int)
    | ParallelismLimited(parallelismLimit: int)
    | GlobalQPS(qps: real, burst: int)
    | Poisson(expectedActionsPerSecond: real)

  /** Every load type is an optional field; validation wants exactly one of them. */
  datatype TuningSet = TuningSet(
    name: string,
    qpsLoad: Option<real>,
    randomizedLoad: Option<real>,
    steppedLoad: Option<(int, int)>,
    timeLimitedLoad: Option<int>,
    randomizedTimeLimitedLoad: Option<int>,
    parallelismLimitedLoad: Option<int>,
    globalQPSLoad: Option<(real, int)>,
    poissonLoad: Option<real>)

  datatype Phase = Phase(tuningSet: string)

  datatype Step = Step(phases: seq<Phase>)

  datatype Fault = NotPositive(load: Load) | NotExactlyOne | NotDeclared(name: string) | Other

  predicate Declares(ts: TuningSet, l: Load) {
    match l
    case QPS(q) => ts.qpsLoad == Some(q)
    case Randomized(q) => ts.randomizedLoad == Some(q)
    case Stepped(b, d) => ts.steppedLoad == Some((b, d))
    case TimeLimited(t) => ts.timeLimitedLoad == Some(t)
    case RandomizedTimeLimited(t) => ts.randomizedTimeLimitedLoad == Some(t)
    case ParallelismLimited(p) => ts.parallelismLimitedLoad == Some(p)
    case GlobalQPS(q, b) => ts.globalQPSLoad == Some((q, b))
    case Poisson(e) => ts.poissonLoad == Some(e)
  }

  ghost function One(b: bool): nat { if b then 1 else 0 }

  ghost function NumberDeclared(ts: TuningSet): nat {
    One(ts.qpsLoad.Some?) + One(ts.randomizedLoad.Some?) + One(ts.steppedLoad.Some?) + One(ts.timeLimitedLoad.Some?)
    + One(ts.randomizedTimeLimitedLoad.Some?) + One(ts.parallelismLimitedLoad.Some?) + One(ts.globalQPSLoad.Some?)
    + One(ts.poissonLoad.Some?)
  }

  /** Parameters that execution divides by, or that bound a pool, are positive. */
  predicate Runnable(l: Load) {
    match l
    case QPS(q) => q > 0.0
    case Randomized(q) => q > 0.0
    case Stepped(b, _) => b > 0
    case TimeLimited(t) => t > 0
    case RandomizedTimeLimited(t) => t > 0
    case ParallelismLimited(p) => p > 0
    case GlobalQPS(q, b) => q > 0.0 && b > 0
    case Poisson(e) => e > 0.0
  }

  /** l is the only load declared, and it can run. */
  ghost predicate WellDeclared(ts: TuningSet, l: Load) {
    Declares(ts, l) && (forall m :: Declares(ts, m) ==> m == l) && Runnable(l)
  }

  ghost predicate IsWellDeclared(ts: TuningSet) {
    exists l :: WellDeclared(ts, l)
  }

  /** Some declared load, in the order the factory's switch looks for one. */
  lemma SomeLoad(ts: TuningSet) returns (l: Load)
    requires NumberDeclared(ts) > 0
    ensures Declares(ts, l)
  {
    if ts.qpsLoad.Some? { return QPS(ts.qpsLoad.value); }
    if ts.randomizedLoad.Some? { return Randomized(ts.randomizedLoad.value); }
    if ts.steppedLoad.Some? { return Stepped(ts.steppedLoad.value.0, ts.steppedLoad.value.1); }
    if ts.timeLimitedLoad.Some? { return TimeLimited(ts.timeLimitedLoad.value); }
    if ts.randomizedTimeLimitedLoad.Some? { return RandomizedTimeLimited(ts.randomizedTimeLimitedLoad.value); }
    if ts.parallelismLimitedLoad.Some? { return ParallelismLimited(ts.parallelismLimitedLoad.value); }
    if ts.globalQPSLoad.Some? { return GlobalQPS(ts.globalQPSLoad.value.0, ts.globalQPSLoad.value.1); }
    return Poisson(ts.poissonLoad.value);
  }

  lemma DeclaringCounts(ts: TuningSet, l: Load, m: Load)
    requires Declares(ts, l) && Declares(ts, m)
    ensures NumberDeclared(ts) >= 1
    ensures l != m ==> NumberDeclared(ts) >= 2
  {
  }

  /** A second declared load, when there are two. */
  lemma OtherLoad(ts: TuningSet, l: Load) returns (m: Load)
    requires Declares(ts, l) && NumberDeclared(ts) >= 2
    ensures Declares(ts, m) && m != l
  {
    var without :=
      match l
      case QPS(_) => ts.(qpsLoad := None)
      case Randomized(_) => ts.(randomizedLoad := None)
      case Stepped(_, _) => ts.(steppedLoad := None)
      case TimeLimited(_) => ts.(timeLimitedLoad := None)
      case RandomizedTimeLimited(_) => ts.(randomizedTimeLimitedLoad := None)
      case ParallelismLimited(_) => ts.(parallelismLimitedLoad := None)
      case GlobalQPS(_, _) => ts.(globalQPSLoad := None)
      case Poisson(_) => ts.(poissonLoad := None);
    m := SomeLoad(without);
  }

  /** Exactly one declared load means one declared field. */
  lemma WellDeclaredIff(ts: TuningSet)
    ensures IsWellDeclared(ts) <==> NumberDeclared(ts) == 1 && forall l :: Declares(ts, l) ==> Runnable(l)
  {
    if IsWellDeclared(ts) {
      var l :| WellDeclared(ts, l);
      DeclaringCounts(ts, l, l);
      if NumberDeclared(ts) >= 2 {
        var m := OtherLoad(ts, l);
      }
    }
    if NumberDeclared(ts) == 1 && forall l :: Declares(ts, l) ==> Runnable(l) {
      var l := SomeLoad(ts);
      forall m | Declares(ts, m) ensures m == l { DeclaringCounts(ts, l, m); }
      assert WellDeclared(ts, l);
    }
  }

  // ------------------------------------------------------- validators

  /** All declared parameters positive, field by field. */
  ghost predicate FieldsPositive(ts: TuningSet) {
    && (ts.qpsLoad.Some? ==> ts.qpsLoad.value > 0.0)
    && (ts.randomizedLoad.Some? ==> ts.randomizedLoad.value > 0.0)
    && (ts.steppedLoad.Some? ==> ts.steppedLoad.value.0 > 0)
    && (ts.timeLimitedLoad.Some? ==> ts.timeLimitedLoad.value > 0)
    && (ts.randomizedTimeLimitedLoad.Some? ==> ts.randomizedTimeLimitedLoad.value > 0)
    && (ts.parallelismLimitedLoad.Some? ==> ts.parallelismLimitedLoad.value > 0)
    && (ts.globalQPSLoad.Some? ==> ts.globalQPSLoad.value.0 > 0.0 && ts.globalQPSLoad.value.1 > 0)
    && (ts.poissonLoad.Some? ==> ts.poissonLoad.value > 0.0)
  }

  lemma FieldsRunnable(ts: TuningSet)
    ensures FieldsPositive(ts) <==> forall l :: Declares(ts, l) ==> Runnable(l)
  {
    if forall l :: Declares(ts, l) ==> Runnable(l) {
      assert ts.qpsLoad.Some? ==> Declares(ts, QPS(ts.qpsLoad.value));
      assert ts.randomizedLoad.Some? ==> Declares(ts, Randomized(ts.randomizedLoad.value));
      assert ts.steppedLoad.Some? ==> Declares(ts, Stepped(ts.steppedLoad.value.0, ts.steppedLoad.value.1));
      assert ts.timeLimitedLoad.Some? ==> Declares(ts, TimeLimited(ts.timeLimitedLoad.value));
      assert ts.randomizedTimeLimitedLoad.Some? ==>
        Declares(ts, RandomizedTimeLimited(ts.randomizedTimeLimitedLoad.value));
      assert ts.parallelismLimitedLoad.Some? ==> Declares(ts, ParallelismLimited(ts.parallelismLimitedLoad.value));
      assert ts.globalQPSLoad.Some? ==> Declares(ts, GlobalQPS(ts.globalQPSLoad.value.0, ts.globalQPSLoad.value.1));
      assert ts.poissonLoad.Some? ==> Declares(ts, Poisson(ts.poissonLoad.value));
    }
  }

  /** The per-load validators; a shared limiter has two parameters to check. */
  function Faults(l: Load): (r: seq<Fault>)
    ensures r == [] <==> Runnable(l)
  {
    match l
    case GlobalQPS(q, b) =>
      (if q <= 0.0 then [NotPositive(l)] else []) + (if b <= 0 then [NotPositive(l)] else [])
    case _ => if Runnable(l) then [] else [NotPositive(l)]
  }

  /** One load type of the validator: count it and append its faults when it is present. */
  method CheckLoad(errs: seq<Fault>, number: nat, l: Option<Load>) returns (errs': seq<Fault>, number': nat)
    ensures |errs'| == 0 <==> |errs| == 0 && (l.Some? ==> Runnable(l.value))
    ensures number' == number + One(l.Some?)
  {
    errs', number' := errs, number;
    if l.Some? {
      number' := number' + 1;
      errs' := errs' + Faults(l.value);
    }
  }

  /** The load a present field stands for. */
  function Field<T>(x: Option<T>, make: T -> Load): Option<Load> {
    if x.Some? then Some(make(x.value)) else None
  }

  /** The first four load types, in the order the validator visits them. */
  method CheckFirstLoads(ts: TuningSet) returns (errs: seq<Fault>, number: nat)
    ensures |errs| == 0 <==>
      && (ts.qpsLoad.Some? ==> ts.qpsLoad.value > 0.0)
      && (ts.randomizedLoad.Some? ==> ts.randomizedLoad.value > 0.0)
      && (ts.steppedLoad.Some? ==> ts.steppedLoad.value.0 > 0)
      && (ts.timeLimitedLoad.Some? ==> ts.timeLimitedLoad.value > 0)
    ensures number
         == One(ts.qpsLoad.Some?) + One(ts.randomizedLoad.Some?) + One(ts.steppedLoad.Some?)
          + One(ts.timeLimitedLoad.Some?)
  {
    errs, number := [], 0;
    errs, number := CheckLoad(errs, number, Field(ts.qpsLoad, q => QPS(q)));
    errs, number := CheckLoad(errs, number, Field(ts.randomizedLoad, q => Randomized(q)));
    errs, number := CheckLoad(errs, number, Field(ts.steppedLoad, (s: (int, int)) => Stepped(s.0, s.1)));
    errs, number := CheckLoad(errs, number, Field(ts.timeLimitedLoad, t => TimeLimited(t)));
  }

  method CheckLoads(ts: TuningSet) returns (errs: seq<Fault>, number: nat)
    ensures |errs| == 0 <==> FieldsPositive(ts)
    ensures number == NumberDeclared(ts)
  {
    errs, number := CheckFirstLoads(ts);
    errs, number := CheckLoad(errs, number, Field(ts.randomizedTimeLimitedLoad, t => RandomizedTimeLimited(t)));
    errs, number := CheckLoad(errs, number, Field(ts.parallelismLimitedLoad, p => ParallelismLimited(p)));
    errs, number := CheckLoad(errs, number, Field(ts.globalQPSLoad, (g: (real, int)) => GlobalQPS(g.0, g.1)));
    errs, number := CheckLoad(errs, number, Field(ts.poissonLoad, e => Poisson(e)));
  }

  method ValidateTuningSet(ts: TuningSet) returns (errs: seq<Fault>)
    ensures errs == [] <==> IsWellDeclared(ts)
  {
    var number: nat;
    errs, number := CheckLoads(ts);
    FieldsRunnable(ts);
    WellDeclaredIff(ts);
    if number != 1 {
      errs := errs + [NotExactlyOne];
    }
  }

  ghost predicate Names(ts: seq<TuningSet>, name: string) {
    exists j :: 0 <= j < |ts| && ts[j].name == name
  }

  method ValidateTuningSetInPhase(s: Step, ts: seq<TuningSet>) returns (errs: seq<Fault>)
    ensures errs == [] <==> forall i :: 0 <= i < |s.phases| ==>
      s.phases[i].tuningSet == "" || Names(ts, s.phases[i].tuningSet)
  {
    errs := [];
    for i := 0 to |s.phases|
      invariant errs == [] <==> forall k :: 0 <= k < i ==>
        s.phases[k].tuningSet == "" || Names(ts, s.phases[k].tuningSet)
    {
      var name := s.phases[i].tuningSet;
      if name != "" {
        var found := false;
        var j := 0;
        while j < |ts| && !found
          invariant 0 <= j <= |ts|
          invariant found ==> Names(ts, name)
          invariant !found ==> forall k :: 0 <= k < j ==> ts[k].name != name
        {
          if name == ts[j].name {
            found := true;
          }
          j := j + 1;
        }
        if !found {
          errs := errs + [NotDeclared(name)];
        }
      }
    }
  }

  ghost predicate PhasesDeclared(steps: seq<Step>, ts: seq<TuningSet>) {
    forall n, i :: 0 <= n < |steps| && 0 <= i < |steps[n].phases| ==>
      steps[n].phases[i].tuningSet == "" || Names(ts, steps[n].phases[i].tuningSet)
  }

  ghost predicate AllWellDeclared(ts: seq<TuningSet>) {
    forall j :: 0 <= j < |ts| ==> IsWellDeclared(ts[j])
  }

  /** `others` are the faults of the remaining validators. */
  method Validate(ts: seq<TuningSet>, steps: seq<Step>, others: seq<Fault>) returns (errs: seq<Fault>)
    ensures errs == [] <==>
      && others == []
      && AllWellDeclared(ts)
      && steps != [] && PhasesDeclared(steps, ts)
  {
    errs := others;
    for j := 0 to |ts|
      invariant errs == [] <==> others == [] && forall k :: 0 <= k < j ==> IsWellDeclared(ts[k])
    {
      var e := ValidateTuningSet(ts[j]);
      errs := errs + e;
    }
    if |steps| == 0 {
      errs := errs + [Other];
    }
    ghost var before := errs;
    for n := 0 to |steps|
      invariant errs == [] <==> before == [] && PhasesDeclared(steps[..n], ts)
    {
      var e := ValidateTuningSetInPhase(steps[n], ts);
      errs := errs + e;
      assert steps[..n + 1] == steps[..n] + [steps[n]];
      forall k, i | 0 <= k < n + 1 && 0 <= i < |steps[..n + 1][k].phases| && PhasesDeclared(steps[..n], ts) && k < n
        ensures steps[k].phases[i].tuningSet == "" || Names(ts, steps[k].phases[i].tuningSet)
      {
        assert steps[..n][k] == steps[k];
      }
      if PhasesDeclared(steps[..n + 1], ts) {
        forall k, i | 0 <= k < n && 0 <= i < |steps[..n][k].phases|
          ensures steps[..n][k].phases[i].tuningSet == "" || Names(ts, steps[..n][k].phases[i].tuningSet)
        {
          assert steps[..n + 1][k] == steps[..n][k];
        }
        assert steps[..n + 1][n] == steps[n];
      }
    }
    assert steps[..|steps|] == steps;
  }

  // ------------------------------------------------------- the factory

  /** The last declaration with that name. */
  ghost function LastDeclared(ts: seq<TuningSet>, name: string): Option<TuningSet> {
    if ts == [] then None
    else if ts[|ts| - 1].name == name then Some(ts[|ts| - 1])
    else LastDeclared(ts[..|ts| - 1], name)
  }

  /** By position: no later declaration has the name. */
  lemma {:induction false} LastDeclaredMeans(ts: seq<TuningSet>, name: string, d: TuningSet)
    ensures LastDeclared(ts, name) == Some(d) <==>
      exists i :: 0 <= i < |ts| && ts[i] == d && d.name == name && forall j :: i < j < |ts| ==> ts[j].name != name
  {
    if ts != [] {
      var n := |ts| - 1;
      LastDeclaredMeans(ts[..n], name, d);
      assert forall i :: 0 <= i < n ==> ts[..n][i] == ts[i];
      if ts[n].name == name { assert ts[n] == ts[|ts| - 1]; }
    }
  }

  datatype CreateError = NotFound | Incorrect

  /** What a factory remembers: the declarations of the last Init, and the shared limiters ever created. */
  datatype FactoryState = FactoryState(sets: map<string, TuningSet>, limiters: map<string, Load>)

  ghost predicate InitStep(f: FactoryState, ts: seq<TuningSet>, f': FactoryState) {
    && f'.limiters == f.limiters
    && (forall n :: n in f'.sets <==> LastDeclared(ts, n).Some?)
    && (forall n :: n in f'.sets ==> f'.sets[n] == LastDeclared(ts, n).value)
  }

  ghost predicate CreateStep(f: FactoryState, name: string, r: Result<Load, CreateError>, f': FactoryState) {
    && f'.sets == f.sets
    && f'.limiters == (if r.Ok? && r.value.GlobalQPS? then f.limiters[name := r.value] else f.limiters)
    && if name in f.sets then Creates(f.sets[name], f.limiters, name, r) else r == Err(NotFound)
  }

  class Factory {
    var tuningSetMap: map<string, TuningSet>
    /** Shared rate limiters by name; they outlive Init. */
    var existing: map<string, Load>

    ghost function View(): FactoryState reads this {
      FactoryState(tuningSetMap, existing)
    }

    constructor ()
      ensures View() == FactoryState(map[], map[])
    {
      tuningSetMap, existing := map[], map[];
    }

    method Init(ts: seq<TuningSet>)
      modifies `tuningSetMap
      ensures InitStep(old(View()), ts, View())
    {
      tuningSetMap := map[];
      for i := 0 to |ts|
        invariant forall n :: n in tuningSetMap <==> LastDeclared(ts[..i], n).Some?
        invariant forall n :: n in tuningSetMap ==> tuningSetMap[n] == LastDeclared(ts[..i], n).value
      {
        assert ts[..i + 1][..i] == ts[..i];
        tuningSetMap := tuningSetMap[ts[i].name := ts[i]];
      }
      assert ts[..|ts|] == ts;
    }

    method CreateTuningSet(name: string) returns (r: Result<Load, CreateError>)
      modifies `existing
      ensures CreateStep(old(View()), name, r, View())
    {
      if name !in tuningSetMap { return Err(NotFound); }
      var ts := tuningSetMap[name];
      var l: Load;
      if ts.qpsLoad.Some? {
        l := QPS(ts.qpsLoad.value);
      } else if ts.randomizedLoad.Some? {
        l := Randomized(ts.randomizedLoad.value);
      } else if ts.steppedLoad.Some? {
        l := Stepped(ts.steppedLoad.value.0, ts.steppedLoad.value.1);
      } else if ts.timeLimitedLoad.Some? {
        l := TimeLimited(ts.timeLimitedLoad.value);
      } else if ts.randomizedTimeLimitedLoad.Some? {
        l := RandomizedTimeLimited(ts.randomizedTimeLimitedLoad.value);
      } else if ts.parallelismLimitedLoad.Some? {
        l := ParallelismLimited(ts.parallelismLimitedLoad.value);
      } else if ts.globalQPSLoad.Some? {
        l := GlobalQPS(ts.globalQPSLoad.value.0, ts.globalQPSLoad.value.1);
      } else if ts.poissonLoad.Some? {
        l := Poisson(ts.poissonLoad.value);
      } else {
        return Err(Incorrect);
      }
      assert Preferred(ts, l);
      if l.GlobalQPS? {
        l := GetOrCreate(name, l);
      }
      return Ok(l);
    }

    method GetOrCreate(name: string, l: Load) returns (r: Load)
      modifies `existing
      ensures r == if name in old(existing) then old(existing)[name] else l
      ensures existing == old(existing)[name := r]
    {
      if name !in existing {
        existing := existing[name := l];
      }
      r := existing[name];
    }
  }

  /** The factory's order of preference when several loads are declared. */
  function Rank(l: Load): nat {
    match l
    case QPS(_) => 0
    case Randomized(_) => 1
    case Stepped(_, _) => 2
    case TimeLimited(_) => 3
    case RandomizedTimeLimited(_) => 4
    case ParallelismLimited(_) => 5
    case GlobalQPS(_, _) => 6
    case Poisson(_) => 7
  }

  ghost predicate Preferred(ts: TuningSet, l: Load) {
    Declares(ts, l) && forall m :: Declares(ts, m) ==> Rank(l) <= Rank(m)
  }

  /** The order of the factory's switch. */
  lemma SwitchOrder(ts: TuningSet, l: Load)
    requires Preferred(ts, l)
    ensures
      if ts.qpsLoad.Some? then l.QPS?
      else if ts.randomizedLoad.Some? then l.Randomized?
      else if ts.steppedLoad.Some? then l.Stepped?
      else if ts.timeLimitedLoad.Some? then l.TimeLimited?
      else if ts.randomizedTimeLimitedLoad.Some? then l.RandomizedTimeLimited?
      else if ts.parallelismLimitedLoad.Some? then l.ParallelismLimited?
      else if ts.globalQPSLoad.Some? then l.GlobalQPS?
      else l.Poisson?
  {
    assert ts.qpsLoad.Some? ==> Declares(ts, QPS(ts.qpsLoad.value));
    assert ts.randomizedLoad.Some? ==> Declares(ts, Randomized(ts.randomizedLoad.value));
    assert ts.steppedLoad.Some? ==> Declares(ts, Stepped(ts.steppedLoad.value.0, ts.steppedLoad.value.1));
    assert ts.timeLimitedLoad.Some? ==> Declares(ts, TimeLimited(ts.timeLimitedLoad.value));
    assert ts.randomizedTimeLimitedLoad.Some? ==>
      Declares(ts, RandomizedTimeLimited(ts.randomizedTimeLimitedLoad.value));
    assert ts.parallelismLimitedLoad.Some? ==> Declares(ts, ParallelismLimited(ts.parallelismLimitedLoad.value));
    assert ts.globalQPSLoad.Some? ==> Declares(ts, GlobalQPS(ts.globalQPSLoad.value.0, ts.globalQPSLoad.value.1));
  }

  /** The created load is the preferred one, except that a shared limiter may already exist under the name. */
  ghost predicate Creates(ts: TuningSet, existing: map<string, Load>, name: string, r: Result<Load, CreateError>) {
    if NumberDeclared(ts) == 0 then r == Err(Incorrect)
    else exists l :: Preferred(ts, l) && r == Ok(if l.GlobalQPS? && name in existing then existing[name] else l)
  }

  lemma {:induction false} NamedIsLastDeclared(ts: seq<TuningSet>, name: string)
    ensures Names(ts, name) <==> LastDeclared(ts, name).Some?
    ensures LastDeclared(ts, name).Some? ==>
      LastDeclared(ts, name).value in ts && LastDeclared(ts, name).value.name == name
  {
    if ts != [] {
      var n := |ts| - 1;
      NamedIsLastDeclared(ts[..n], name);
      if Names(ts, name) && ts[n].name != name {
        var j :| 0 <= j < |ts| && ts[j].name == name;
        assert ts[..n][j].name == name;
      }
      if Names(ts[..n], name) {
        var j :| 0 <= j < n && ts[..n][j].name == name;
        assert ts[j].name == name;
      }
    }
  }

  // ------------------------------------------------------- any use of a factory

  datatype Call = Initialise(ts: seq<TuningSet>) | Create(name: string, r: Result<Load, CreateError>)

  ghost predicate CallAt(states: seq<FactoryState>, calls: seq<Call>, i: nat) {
    && i < |calls| && i + 1 < |states|
    && match calls[i]
       case Initialise(ts) => InitStep(states[i], ts, states[i + 1])
       case Create(name, r) => CreateStep(states[i], name, r, states[i + 1])
  }

  /** A new factory and any sequence of calls with the answers they gave. */
  ghost predicate IsHistory(states: seq<FactoryState>, calls: seq<Call>) {
    && |states| == |calls| + 1
    && states[0] == FactoryState(map[], map[])
    && forall i: nat {:trigger CallAt(states, calls, i)} :: i < |calls| ==> CallAt(states, calls, i)
  }

  /** Every Init got a validated configuration. */
  ghost predicate AllValidated(calls: seq<Call>) {
    forall i :: 0 <= i < |calls| && calls[i].Initialise? ==> AllWellDeclared(calls[i].ts)
  }

  /** Declarations are valid and every limiter is a shared one that can run. */
  ghost predicate Sound(f: FactoryState) {
    && (forall n :: n in f.sets ==> IsWellDeclared(f.sets[n]))
    && (forall n :: n in f.limiters ==> f.limiters[n].GlobalQPS? && Runnable(f.limiters[n]))
  }

  /** The answer for a declared name in a sound state. */
  ghost predicate Answer(f: FactoryState, name: string, r: Result<Load, CreateError>, l: Load) {
    && name in f.sets && WellDeclared(f.sets[name], l)
    && r == Ok(if l.GlobalQPS? && name in f.limiters then f.limiters[name] else l)
  }

  lemma CreateAnswers(f: FactoryState, name: string, r: Result<Load, CreateError>)
    requires Sound(f) && name in f.sets && Creates(f.sets[name], f.limiters, name, r)
    ensures exists l :: Answer(f, name, r, l)
  {
    assert IsWellDeclared(f.sets[name]);
    var l :| WellDeclared(f.sets[name], l);
    DeclaringCounts(f.sets[name], l, l);
    assert Answer(f, name, r, l);
  }

  lemma {:induction false} HistoryIsSound(states: seq<FactoryState>, calls: seq<Call>, n: nat)
    requires IsHistory(states, calls) && AllValidated(calls) && n <= |calls|
    ensures Sound(states[n])
  {
    if n > 0 {
      HistoryIsSound(states, calls, n - 1);
      assert CallAt(states, calls, n - 1);
      match calls[n - 1]
      case Initialise(ts) =>
        forall k | k in states[n].sets ensures IsWellDeclared(states[n].sets[k]) {
          NamedIsLastDeclared(ts, k);
        }
      case Create(name, r) =>
        if name in states[n - 1].sets {
          CreateAnswers(states[n - 1], name, r);
        }
    }
  }

  /** Same type as the declared load, and equal to it unless another limiter holds the name. */
  ghost predicate OfDeclaredType(f: FactoryState, name: string, r: Result<Load, CreateError>, l: Load) {
    && name in f.sets && WellDeclared(f.sets[name], l)
    && r.Ok? && (r.value == l || (l.GlobalQPS? && r.value.GlobalQPS?))
    && (r == Ok(l) <==> !(l.GlobalQPS? && name in f.limiters && f.limiters[name] != l))
  }

  /**
   * However often a factory is initialised with validated configurations and used: creating a
   * declared name succeeds with a load of the declared type that can run, and with the declared
   * parameters exactly unless a shared limiter with other parameters is registered under the name.
   */
  lemma CreatedLoadCanRun(states: seq<FactoryState>, calls: seq<Call>, n: nat)
    requires IsHistory(states, calls) && AllValidated(calls)
    requires n < |calls| && calls[n].Create? && calls[n].name in states[n].sets
    ensures calls[n].r.Ok? && Runnable(calls[n].r.value)
    ensures exists l :: OfDeclaredType(states[n], calls[n].name, calls[n].r, l)
  {
    HistoryIsSound(states, calls, n);
    assert CallAt(states, calls, n);
    var f, name, r := states[n], calls[n].name, calls[n].r;
    CreateAnswers(f, name, r);
    var l :| Answer(f, name, r, l);
    assert OfDeclaredType(f, name, r, l);
  }

  /** One Init, as the test executor makes, followed by creations only. */
  ghost predicate InitialisedOnce(calls: seq<Call>, ts: seq<TuningSet>) {
    calls != [] && calls[0] == Initialise(ts) && forall i :: 1 <= i < |calls| ==> calls[i].Create?
  }

  /** Then every limiter is the declared load of its name. */
  lemma {:induction false} LimitersAreDeclared(states: seq<FactoryState>, calls: seq<Call>, ts: seq<TuningSet>, n: nat)
    requires IsHistory(states, calls) && InitialisedOnce(calls, ts) && AllWellDeclared(ts) && 1 <= n <= |calls|
    ensures states[n].sets == states[1].sets
    ensures forall k :: k in states[n].limiters ==>
      k in states[n].sets && WellDeclared(states[n].sets[k], states[n].limiters[k])
  {
    assert CallAt(states, calls, n - 1);
    if n > 1 {
      LimitersAreDeclared(states, calls, ts, n - 1);
      HistoryIsSound(states, calls, n - 1);
      if calls[n - 1].name in states[n - 1].sets {
        CreateAnswers(states[n - 1], calls[n - 1].name, calls[n - 1].r);
      }
    }
  }

  /** r is the unique load of the last declaration of the name, and that load can run. */
  ghost predicate CreatedAsDeclared(ts: seq<TuningSet>, name: string, r: Result<Load, CreateError>) {
    && LastDeclared(ts, name).Some?
    && r.Ok? && WellDeclared(LastDeclared(ts, name).value, r.value)
  }

  /**
   * A configuration without faults, one Init with it, any creations: creating a name that some
   * phase uses gives the unique load of its last declaration, with positive parameters.
   */
  lemma ValidatedNameIsCreated(ts: seq<TuningSet>, steps: seq<Step>, s: nat, i: nat,
                               states: seq<FactoryState>, calls: seq<Call>, n: nat)
    requires AllWellDeclared(ts) && PhasesDeclared(steps, ts)
    requires s < |steps| && i < |steps[s].phases| && steps[s].phases[i].tuningSet != ""
    requires IsHistory(states, calls) && InitialisedOnce(calls, ts) && 1 <= n < |calls|
    requires calls[n].name == steps[s].phases[i].tuningSet
    ensures CreatedAsDeclared(ts, calls[n].name, calls[n].r)
  {
    var name, r := calls[n].name, calls[n].r;
    NamedIsLastDeclared(ts, name);
    assert CallAt(states, calls, 0);
    LimitersAreDeclared(states, calls, ts, n);
    HistoryIsSound(states, calls, n);
    assert CallAt(states, calls, n);
    CreateAnswers(states[n], name, r);
    var l :| Answer(states[n], name, r, l);
  }

  /** Init, create, Init with other parameters, create: the second answer keeps the first parameters. */
  method StaleLimiterAfterReinit()
    returns (declared: TuningSet, first: Result<Load, CreateError>, second: Result<Load, CreateError>)
    ensures WellDeclared(declared, GlobalQPS(2.0, 1))
    ensures first == second == Ok(GlobalQPS(1.0, 1))
  {
    var a := TuningSet("g", None, None, None, None, None, None, Some((1.0, 1)), None);
    declared := a.(globalQPSLoad := Some((2.0, 1)));
    var f := new Factory();
    OnlyDeclaration(a);
    OnlyDeclaration(declared);
    f.Init([a]);
    first := f.CreateTuningSet("g");
    f.Init([declared]);
    second := f.CreateTuningSet("g");
  }

  lemma OnlyDeclaration(ts: TuningSet)
    ensures LastDeclared([ts], ts.name) == Some(ts)
  {
  }
}
