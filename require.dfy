/** The second loader: every module object counts the dependencies it still
    waits for. `analyzeDep` sets the count and records the module as a waiter
    on each dependency name; when a module reaches EXECUTED, one deferred
    decrement is queued for every waiter recorded under its name, and a count
    that is set to 0 runs the module. The deferred decrements (`setTimeout`)
    are an explicit first-in first-out queue, `timers`, that `RunTimer` drains
    one entry at a time. */
module Require {
  import opened JsValues
  import opened ModulePaths

  // `Module.STATUS`
  const INITED: int := 1
  const FETCHING: int := 2
  const FETCHED: int := 3
  const EXECUTING: int := 4
  const EXECUTED: int := 5
  const ERROR: int := 6

  /** Why an operation threw. */
  datatype Thrown =
    | NoSuchModule(name: string)       // `define` for a name `modules` does not hold
    | DepCountRedefined                // `analyzeDep` a second time on one object
    | MissingDependency(name: string)  // `modules[dep].exports` of a missing entry
    | NotAFunction                     // `cb.apply` when `cb` is not a function

  datatype Outcome = Completed | Threw(reason: Thrown)

  /** One call of a module's callback, with its arguments. */
  datatype Invocation = Invocation(fn: Callback, args: seq<Export>)

  /** A module object is known by its position in the loader's object
      table; its `mid` is that position plus one. */
  type ObjectId = nat

  /** The fields of a module object. `status` 0 stands for the property not
      being defined yet; `hasDepCount` records that `analyzeDep` has defined
      the `depCount` accessor (a second definition throws). A dependency
      list that is falsy is the empty list here. */
  datatype Module = Module(
    mid: nat, name: string, src: string, dep: seq<string>, cb: Option<Callback>, errorFn: JsValue,
    status: int, hasDepCount: bool, depCount: int, exports: Export)

  /** `new Module(name)` as the `mid`-th object: `init` sets the fields and
      the first `callHook` defines the status as INITED without any hook;
      `fetch` injects the script and moves to FETCHING. */
  function Unloaded(mid: nat, name: string): Module
  {
    Module(mid, name, ModuleNameToModulePath(name), [], None, Undefined, FETCHING, false, 0, Undef)
  }

  /** The objects that `analyzeDep` creates for `names` when the table holds
      `first` objects already. */
  function Fetching(first: nat, names: seq<string>): seq<Module>
  {
    seq(|names|, j requires 0 <= j < |names| => Unloaded(first + j + 1, names[j]))
  }

  /** The statuses of `n` objects just created. */
  function Fresh(n: nat): seq<seq<int>>
  {
    seq(n, _ => [INITED, FETCHING])
  }

  /** The run counts of `n` objects just created. */
  function Zeros(n: nat): seq<nat>
  {
    seq(n, _ => 0)
  }

  /** The facts each module object keeps, given the statuses it has had and
      the number of times it has run: a defined status that is the last one
      recorded, after INITED and FETCHING; and one execution exactly when its
      defined count has reached 0 or below. */
  ghost predicate ObjectValid(o: Module, trace: seq<int>, runs: nat)
  {
    INITED <= o.status <= ERROR &&
    |trace| >= 2 && trace[0] == INITED && trace[1] == FETCHING && o.status == trace[|trace| - 1] &&
    runs == if o.hasDepCount && o.depCount <= 0 then 1 else 0
  }

  // ---------------------------------------------------------------------
  // The waiter table `mapDepToModule`, as values

  function Lookup(t: map<string, seq<ObjectId>>, x: string): seq<ObjectId>
  {
    if x in t then t[x] else []
  }

  /** `mapDepToModule` after the loop of `analyzeDep` for waiter `w`: for each
      dependency, in order, `w` is appended to its list, which is created when
      missing. */
  function Register(t: map<string, seq<ObjectId>>, w: ObjectId, deps: seq<string>): map<string, seq<ObjectId>>
  {
    if deps == [] then t
    else
      var before := Register(t, w, deps[..|deps| - 1]);
      var d := deps[|deps| - 1];
      before[d := Lookup(before, d) + [w]]
  }

  function Repeat(w: ObjectId, n: nat): (r: seq<ObjectId>)
    ensures |r| == n && forall i :: 0 <= i < n ==> r[i] == w
  {
    if n == 0 then [] else Repeat(w, n - 1) + [w]
  }

  /** Registering `w` appends `w` to the list of every name once per
      occurrence of that name among the dependencies, and nothing else. */
  lemma {:induction false} RegisterLookup(t: map<string, seq<ObjectId>>, w: ObjectId, deps: seq<string>, x: string)
    ensures Lookup(Register(t, w, deps), x) == Lookup(t, x) + Repeat(w, multiset(deps)[x])
  {
    if deps == [] {
      assert Lookup(t, x) + [] == Lookup(t, x);
    } else {
      var init := deps[..|deps| - 1];
      var d := deps[|deps| - 1];
      assert deps == init + [d];
      assert multiset(deps) == multiset(init) + multiset{d};
      RegisterLookup(t, w, init, x);
      if d == x {
        assert Repeat(w, multiset(deps)[x]) == Repeat(w, multiset(init)[x]) + [w];
      }
    }
  }

  /** The table that a sequence of registrations builds from nothing. */
  function TableOf(rs: seq<(ObjectId, seq<string>)>): map<string, seq<ObjectId>>
  {
    if rs == [] then map[] else Register(TableOf(rs[..|rs| - 1]), rs[|rs| - 1].0, rs[|rs| - 1].1)
  }

  /** How often the registrations of `w` name `x`. */
  function DeclaredCount(rs: seq<(ObjectId, seq<string>)>, w: ObjectId, x: string): nat
  {
    if rs == [] then 0
    else DeclaredCount(rs[..|rs| - 1], w, x) + (if rs[|rs| - 1].0 == w then multiset(rs[|rs| - 1].1)[x] else 0)
  }

  lemma {:induction false} RepeatCount(w: ObjectId, n: nat)
    ensures multiset(Repeat(w, n))[w] == n
  {
    if n > 0 {
      RepeatCount(w, n - 1);
      assert Repeat(w, n) == Repeat(w, n - 1) + [w];
    }
  }

  /** A module object waits on `x` exactly as often as its registered
      dependency lists name `x`, so that it receives that many decrements
      when `x` executes. */
  lemma {:induction false} WaitersMatchDeclarations(rs: seq<(ObjectId, seq<string>)>, x: string, w: ObjectId)
    ensures multiset(Lookup(TableOf(rs), x))[w] == DeclaredCount(rs, w, x)
  {
    if rs != [] {
      var init := rs[..|rs| - 1];
      var last := rs[|rs| - 1];
      WaitersMatchDeclarations(init, x, w);
      RegisterLookup(TableOf(init), last.0, last.1, x);
      var reps := Repeat(last.0, multiset(last.1)[x]);
      assert multiset(Lookup(TableOf(rs), x)) == multiset(Lookup(TableOf(init), x)) + multiset(reps);
      if last.0 == w {
        RepeatCount(w, multiset(last.1)[x]);
      } else {
        assert w !in multiset(reps);
      }
    }
  }

  /** Every waiter in the table was registered. */
  lemma {:induction false} WaitersAreRegistered(rs: seq<(ObjectId, seq<string>)>, x: string)
    ensures forall v :: v in Lookup(TableOf(rs), x) ==> exists i :: 0 <= i < |rs| && rs[i].0 == v
  {
    if rs != [] {
      var init := rs[..|rs| - 1];
      var last := rs[|rs| - 1];
      WaitersAreRegistered(init, x);
      RegisterLookup(TableOf(init), last.0, last.1, x);
      forall v | v in Lookup(TableOf(rs), x) ensures exists i :: 0 <= i < |rs| && rs[i].0 == v {
        if v in Lookup(TableOf(init), x) {
          var i :| 0 <= i < |init| && init[i].0 == v;
          assert rs[i] == init[i];
        } else {
          assert rs[|rs| - 1].0 == v;
        }
      }
    }
  }

  // ---------------------------------------------------------------------
  // The registry `modules`, as values

  /** `modules` after the loop of `analyzeDep` stores, for each of `names` in
      order, the object created for it; the first one is object `first`. */
  function StoreAll(mods: map<string, ObjectId>, names: seq<string>, first: nat): map<string, ObjectId>
  {
    if names == [] then mods
    else StoreAll(mods, names[..|names| - 1], first)[names[|names| - 1] := first + |names| - 1]
  }

  /** Storing keeps the names already present and adds those of `names`;
      each of those holds the object created for its last occurrence. */
  lemma {:induction false} StoreAllEntries(mods: map<string, ObjectId>, names: seq<string>, first: nat, k: string)
    ensures k in StoreAll(mods, names, first) <==> k in mods || k in names
    ensures k !in names && k in mods ==> StoreAll(mods, names, first)[k] == mods[k]
    ensures k in names ==> exists j :: 0 <= j < |names| && names[j] == k && StoreAll(mods, names, first)[k] == first + j &&
                                       forall l :: j < l < |names| ==> names[l] != k
  {
    if names != [] {
      var init := names[..|names| - 1];
      var d := names[|names| - 1];
      StoreAllEntries(mods, init, first, k);
      assert names == init + [d];
      if k in names && k != d {
        var j :| 0 <= j < |init| && init[j] == k && StoreAll(mods, init, first)[k] == first + j &&
                 forall l :: j < l < |init| ==> init[l] != k;
        assert names[j] == k;
      }
    }
  }

  // ---------------------------------------------------------------------
  // What `execute` does, as values

  /** `(this.dep || []).map(dep => modules[dep].exports)`; the error names the
      first dependency that `modules` does not hold. */
  function DepExports(deps: seq<string>, mods: map<string, ObjectId>, objects: seq<Module>): (r: Result<seq<Export>, string>)
    requires forall k :: k in mods ==> mods[k] < |objects|
    ensures r.Ok? <==> forall i :: 0 <= i < |deps| ==> deps[i] in mods
    ensures r.Ok? ==> |r.value| == |deps| && forall i :: 0 <= i < |deps| ==> r.value[i] == objects[mods[deps[i]]].exports
    ensures r.Err? ==> exists i :: 0 <= i < |deps| && deps[i] == r.error && r.error !in mods &&
                                   forall j :: 0 <= j < i ==> deps[j] in mods
  {
    if deps == [] then Ok([])
    else if deps[0] !in mods then Err(deps[0])
    else
      match DepExports(deps[1..], mods, objects)
      case Err(d) =>
        assert exists i :: 1 <= i < |deps| && deps[i] == d && d !in mods && forall j :: 0 <= j < i ==> deps[j] in mods by {
          var i :| 0 <= i < |deps[1..]| && deps[1..][i] == d && d !in mods && forall j :: 0 <= j < i ==> deps[1..][j] in mods;
          assert forall j :: 1 <= j < i + 1 ==> deps[j] == deps[1..][j - 1];
          assert deps[i + 1] == d;
        }
        Err(d)
      case Ok(rest) =>
        assert forall i :: 1 <= i < |deps| ==> deps[i] == deps[1..][i - 1];
        Ok([objects[mods[deps[0]]].exports] + rest)
  }

  /** The effect of one `execute`: what the call throws, the exports it
      stores, the statuses it passes through, the decrements it queues and
      the callback call it makes. */
  datatype Execution = Execution(outcome: Outcome, exports: Export, trace: seq<int>, queued: seq<ObjectId>, invoked: seq<Invocation>)

  /** `execute` as values: EXECUTING first; building the arguments can throw,
      then applying a callback that is not a function throws; otherwise the
      result becomes the exports, the status becomes EXECUTED and every
      waiter under the module's name gets one decrement. */
  function ExecutionOf(args: Result<seq<Export>, string>, cb: Option<Callback>, waiters: seq<ObjectId>, exports: Export): (e: Execution)
    ensures |e.trace| >= 1 && e.trace[0] == EXECUTING && (e.outcome.Completed? <==> e.trace == [EXECUTING, EXECUTED])
    ensures e.outcome.Completed? <==> args.Ok? && cb.Some?
    ensures e.outcome.Completed? ==>
              (e.exports == ResultOf(cb.value, args.value) && e.queued == waiters &&
               e.invoked == [Invocation(cb.value, args.value)])
    ensures e.outcome.Threw? ==> (e.exports == exports && e.trace == [EXECUTING] && e.queued == [] && e.invoked == [])
    ensures args.Err? ==> e.outcome == Threw(MissingDependency(args.error))
    ensures args.Ok? && cb.None? ==> e.outcome == Threw(NotAFunction)
  {
    match args
    case Err(d) => Execution(Threw(MissingDependency(d)), exports, [EXECUTING], [], [])
    case Ok(a) =>
      match cb
      case None => Execution(Threw(NotAFunction), exports, [EXECUTING], [], [])
      case Some(f) => Execution(Completed, ResultOf(f, a), [EXECUTING, EXECUTED], waiters, [Invocation(f, a)])
  }

  /** The object after an execution described by `e`. */
  function AfterExecution(o: Module, e: Execution): Module
    requires |e.trace| >= 1
  {
    o.(status := e.trace[|e.trace| - 1], exports := e.exports)
  }

  // ---------------------------------------------------------------------
  // Argument normalisation

  datatype DefineCall = DefineCall(name: JsValue, dep: JsValue, cb: JsValue, errorFn: JsValue)

  /** `define(name, dep, cb, errorFn)`'s defaulting, `current` being the
      module name of the running script. Only two shapes are rewritten: the
      third branch of the code tests `isString(name) && Array.isArray(name)`,
      which no value meets, and it does nothing. */
  function NormalizeDefine(args: DefineCall, current: string): (r: DefineCall)
    ensures args.name.Fn? ==> r == DefineCall(Str(current), args.dep, args.name, args.errorFn)
    ensures args.name.Arr? && args.dep.Fn? ==> r == DefineCall(Str(current), args.name, args.dep, args.errorFn)
    ensures !args.name.Fn? && !(args.name.Arr? && args.dep.Fn?) ==> r == args
  {
    if args.name.Fn? then args.(name := Str(current), cb := args.name)
    else if args.name.Arr? && args.dep.Fn? then args.(name := Str(current), dep := args.name, cb := args.dep)
    else args
  }

  datatype RequireCall = RequireCall(dep: JsValue, cb: JsValue, errorFn: JsValue)

  /** `require(dep, cb, errorFn)`'s defaulting: a function in first position
      is the callback and there are no dependencies. */
  function NormalizeRequire(args: RequireCall): (r: RequireCall)
    ensures args.dep.Fn? ==> r == RequireCall(Undefined, args.dep, args.errorFn)
    ensures !args.dep.Fn? ==> r == args
  {
    if args.dep.Fn? then args.(dep := Undefined, cb := args.dep) else args
  }

  /** The dependency values the model covers: an array, or a falsy value,
      which `analyzeDep` and `execute` both treat as no dependencies. */
  predicate DepShapeCovered(dep: JsValue)
  {
    dep.Arr? || !Truthy(dep)
  }

  function DepList(dep: JsValue): seq<string>
  {
    if dep.Arr? then dep.items else []
  }

  function CallableOf(cb: JsValue): Option<Callback>
  {
    if cb.Fn? then Some(cb.f) else None
  }

  // ---------------------------------------------------------------------
  // What the loader's tables keep, as values

  /** Ids in creation order, and the facts each object keeps. */
  ghost predicate ObjectsFit(objects: seq<Module>, traces: seq<seq<int>>, runs: seq<nat>)
  {
    |traces| == |objects| && |runs| == |objects| &&
    forall i :: 0 <= i < |objects| ==> objects[i].mid == i + 1 && ObjectValid(objects[i], traces[i], runs[i])
  }

  /** `modules` stores each object under its own name. */
  ghost predicate StoredIn(modules: map<string, ObjectId>, objects: seq<Module>)
  {
    forall k :: k in modules ==> modules[k] < |objects| && objects[modules[k]].name == k
  }

  /** Every id listed is an object whose count is defined. */
  ghost predicate Counted(ids: seq<ObjectId>, objects: seq<Module>)
  {
    forall i :: 0 <= i < |ids| ==> ids[i] < |objects| && objects[ids[i]].hasDepCount
  }

  /** Every registered waiter has a defined count and waits on something. */
  ghost predicate RegistrationsFit(rs: seq<(ObjectId, seq<string>)>, objects: seq<Module>)
  {
    forall i :: 0 <= i < |rs| ==> rs[i].0 < |objects| && objects[rs[i].0].hasDepCount && rs[i].1 != []
  }

  /** A waiter listed under any name is an object with a defined count. */
  lemma WaitersCounted(rs: seq<(ObjectId, seq<string>)>, objects: seq<Module>, x: string)
    requires RegistrationsFit(rs, objects)
    ensures Counted(Lookup(TableOf(rs), x), objects)
  {
    WaitersAreRegistered(rs, x);
    var ws := Lookup(TableOf(rs), x);
    forall i | 0 <= i < |ws| ensures ws[i] < |objects| && objects[ws[i]].hasDepCount {
      assert ws[i] in ws;
    }
  }

  lemma CountedAppend(a: seq<ObjectId>, b: seq<ObjectId>, objects: seq<Module>)
    requires Counted(a, objects) && Counted(b, objects)
    ensures Counted(a + b, objects)
  {
    forall i | 0 <= i < |a + b| ensures (a + b)[i] < |objects| && objects[(a + b)[i]].hasDepCount {
      if i >= |a| {
        assert (a + b)[i] == b[i - |a|];
      }
    }
  }

  lemma CountedTail(a: seq<ObjectId>, objects: seq<Module>)
    requires Counted(a, objects) && a != []
    ensures Counted(a[1..], objects) && a[0] < |objects| && objects[a[0]].hasDepCount
  {
    forall i | 0 <= i < |a| - 1 ensures a[1..][i] < |objects| && objects[a[1..][i]].hasDepCount {
      assert a[1..][i] == a[i + 1];
    }
  }

  /** Changing one object keeps what the tables demand of it when it keeps
      its name and its defined count. */
  lemma UpdateKeepsTables(modules: map<string, ObjectId>, rs: seq<(ObjectId, seq<string>)>, ids: seq<ObjectId>,
                          objects: seq<Module>, id: ObjectId, o: Module)
    requires StoredIn(modules, objects) && RegistrationsFit(rs, objects) && Counted(ids, objects)
    requires id < |objects| && o.name == objects[id].name && (objects[id].hasDepCount ==> o.hasDepCount)
    ensures StoredIn(modules, objects[id := o]) && RegistrationsFit(rs, objects[id := o]) && Counted(ids, objects[id := o])
  {
  }

  /** Changing one object keeps the facts about all of them when it keeps its
      id and the facts of its own. */
  lemma UpdateKeepsObjects(objects: seq<Module>, traces: seq<seq<int>>, runs: seq<nat>, id: ObjectId,
                           o: Module, trace: seq<int>, run: nat)
    requires ObjectsFit(objects, traces, runs) && id < |objects|
    requires o.mid == id + 1 && ObjectValid(o, trace, run)
    ensures ObjectsFit(objects[id := o], traces[id := trace], runs[id := run])
  {
  }

  /** One turn of the loop of `analyzeDep`, as values. */
  lemma CreationStep(objects: seq<Module>, traces: seq<seq<int>>, runs: seq<nat>, mods: map<string, ObjectId>,
                     table: map<string, seq<ObjectId>>, n0: nat, id: ObjectId, deps: seq<string>, i: nat)
    requires i < |deps|
    ensures objects + Fetching(n0, deps[..i + 1]) == objects + Fetching(n0, deps[..i]) + [Unloaded(n0 + i + 1, deps[i])]
    ensures traces + Fresh(i + 1) == traces + Fresh(i) + [[INITED, FETCHING]]
    ensures runs + Zeros(i + 1) == runs + Zeros(i) + [0]
    ensures StoreAll(mods, deps[..i + 1], n0) == StoreAll(mods, deps[..i], n0)[deps[i] := n0 + i]
    ensures Register(table, id, deps[..i + 1]) ==
            Register(table, id, deps[..i])[deps[i] := Lookup(Register(table, id, deps[..i]), deps[i]) + [id]]
  {
    assert deps[..i + 1][..i] == deps[..i];
    assert Fetching(n0, deps[..i + 1]) == Fetching(n0, deps[..i]) + [Unloaded(n0 + i + 1, deps[i])];
    assert Fresh(i + 1) == Fresh(i) + [[INITED, FETCHING]];
    assert Zeros(i + 1) == Zeros(i) + [0];
  }

  /** Appending fresh objects keeps the facts about the existing ones. */
  lemma CreationKeepsObjects(objects: seq<Module>, traces: seq<seq<int>>, runs: seq<nat>, deps: seq<string>)
    requires ObjectsFit(objects, traces, runs)
    ensures ObjectsFit(objects + Fetching(|objects|, deps), traces + Fresh(|deps|),
                       runs + Zeros(|deps|))
  {
  }

  /** Storing the fresh objects under their names keeps `modules` faithful. */
  lemma CreationKeepsStore(modules: map<string, ObjectId>, objects: seq<Module>, deps: seq<string>)
    requires StoredIn(modules, objects)
    ensures StoredIn(StoreAll(modules, deps, |objects|), objects + Fetching(|objects|, deps))
  {
    var all := objects + Fetching(|objects|, deps);
    var stored := StoreAll(modules, deps, |objects|);
    forall k | k in stored ensures stored[k] < |all| && all[stored[k]].name == k {
      StoreAllEntries(modules, deps, |objects|, k);
    }
  }

  /** Registering a waiter with a defined count keeps the registrations and
      the pending decrements faithful. */
  lemma CreationKeepsTables(rs: seq<(ObjectId, seq<string>)>, ids: seq<ObjectId>, objects: seq<Module>,
                            more: seq<Module>, id: ObjectId, deps: seq<string>)
    requires RegistrationsFit(rs, objects) && Counted(ids, objects)
    requires id < |objects| && objects[id].hasDepCount && deps != []
    ensures RegistrationsFit(rs + [(id, deps)], objects + more) && Counted(ids, objects + more)
  {
  }

  // ---------------------------------------------------------------------
  // The loader

  /** The closure shared by `require`, `define` and the module objects. */
  class Resolver {
    var mid: nat
    /** Every module object created, in creation order (one script each). */
    var objects: seq<Module>
    var modules: map<string, ObjectId>
    var mapDepToModule: map<string, seq<ObjectId>>
    /** Pending `setTimeout(() => module.depCount--)` callbacks, oldest first. */
    var timers: seq<ObjectId>
    /** Every call of a module callback, in order. */
    var calls: seq<Invocation>
    var mainEntry: ObjectId
    /** Every status each object has been given, in order. */
    ghost var traces: seq<seq<int>>
    /** How many times `execute` has run on each object. */
    ghost var runs: seq<nat>
    /** Every completed `analyzeDep` loop: the waiter and its dependencies. */
    ghost var registrations: seq<(ObjectId, seq<string>)>

    /** The facts about the module objects: ids in creation order and the
        facts each object keeps. */
    ghost predicate ObjectsValid()
      reads this
    {
      mid == |objects| && mainEntry < |objects| && ObjectsFit(objects, traces, runs)
    }

    ghost predicate ModulesStored()
      reads this
    {
      StoredIn(modules, objects)
    }

    /** `mapDepToModule` is what the registrations built, and only objects
        with a defined count wait or have a pending decrement. */
    ghost predicate TablesValid()
      reads this
    {
      mapDepToModule == TableOf(registrations) && RegistrationsFit(registrations, objects) && Counted(timers, objects)
    }

    ghost predicate Valid()
      reads this
    {
      ObjectsValid() && ModulesStored() && TablesValid()
    }

    /** The invariant, once object `id` has run one more time: what holds
        just before `execute` runs on an object whose count has reached 0. */
    ghost predicate ValidOnceRun(id: ObjectId)
      reads this
    {
      id < |objects| && id < |runs| && objects[id].hasDepCount &&
      mid == |objects| && mainEntry < |objects| && ObjectsFit(objects, traces, runs[id := runs[id] + 1]) &&
      ModulesStored() && TablesValid()
    }

    /** The invariant, once the setter has stored `n` in the count of object
        `id` and has run the object if `n` is 0. */
    ghost predicate ValidOnceSet(id: ObjectId, n: int)
      reads this
    {
      id < |objects| && id < |runs| && objects[id].hasDepCount &&
      mid == |objects| && mainEntry < |objects| &&
      ObjectsFit(objects[id := objects[id].(depCount := n)], traces, runs[id := if n == 0 then runs[id] + 1 else runs[id]]) &&
      ModulesStored() && TablesValid()
    }

    /** Every module object has run at most once. */
    lemma ExecutesAtMostOnce()
      requires Valid()
      ensures forall i :: 0 <= i < |runs| ==> runs[i] <= 1
    {
      forall i | 0 <= i < |runs| ensures runs[i] <= 1 {
        assert ObjectValid(objects[i], traces[i], runs[i]);
      }
    }

    /** Starting the loader: `mainEntryModule = new Module(name)`, with `name`
        taken from the entry script's `data-main` attribute. */
    constructor (dataMain: string)
      ensures Valid()
      ensures mid == 1 && objects == [Unloaded(1, ModulePathToModuleName(dataMain))] && mainEntry == 0
      ensures traces == [[INITED, FETCHING]] && runs == [0]
      ensures modules == map[] && mapDepToModule == map[] && timers == [] && calls == [] && registrations == []
    {
      mid := 1;
      objects := [Unloaded(1, ModulePathToModuleName(dataMain))];
      modules := map[];
      mapDepToModule := map[];
      timers := [];
      calls := [];
      mainEntry := 0;
      traces := [[INITED, FETCHING]];
      runs := [0];
      registrations := [];
    }

    /** `new Module(name)` for a dependency: the next `mid`, then INITED and
        FETCHING. */
    method NewModule(name: string) returns (id: ObjectId)
      requires mid == |objects|
      modifies this`mid, this`objects, this`traces, this`runs
      ensures id == |old(objects)| && mid == old(mid) + 1
      ensures objects == old(objects) + [Unloaded(mid, name)]
      ensures traces == old(traces) + [[INITED, FETCHING]] && runs == old(runs) + [0]
    {
      mid := mid + 1;
      id := |objects|;
      objects := objects + [Unloaded(mid, name)];
      traces := traces + [[INITED, FETCHING]];
      runs := runs + [0];
    }

    /** `callHook(s)` once the status is defined: the setter stores `s` and,
        for EXECUTED, queues one decrement per waiter listed under the
        module's name. */
    method CallHook(id: ObjectId, s: int)
      requires id < |objects| && id < |traces|
      modifies this`objects, this`traces, this`timers
      ensures objects == old(objects)[id := old(objects[id]).(status := s)]
      ensures traces == old(traces)[id := old(traces[id]) + [s]]
      ensures timers == old(timers) + (if old(objects[id].status) != 0 && s == EXECUTED
                                       then Lookup(mapDepToModule, objects[id].name) else [])
    {
      if objects[id].status == 0 {
        objects := objects[id := objects[id].(status := s)];
      } else {
        objects := objects[id := objects[id].(status := s)];
        if s == EXECUTED {
          var depedModules := Lookup(mapDepToModule, objects[id].name);
          var queued := [];
          var i := 0;
          while i < |depedModules|
            invariant 0 <= i <= |depedModules|
            invariant queued == depedModules[..i]
          {
            queued := queued + [depedModules[i]];
            i := i + 1;
          }
          assert depedModules[..i] == depedModules;
          timers := timers + queued;
        }
      }
      traces := traces[id := traces[id] + [s]];
    }

    /** `fetchFail`: the script of the object failed to load. Nothing else
        learns of it: no decrement is queued and no callback runs. */
    method FetchFail(id: ObjectId)
      requires Valid() && id < |objects|
      modifies this`objects, this`traces, this`timers
      ensures Valid()
      ensures objects == old(objects)[id := old(objects[id]).(status := ERROR)]
      ensures traces == old(traces)[id := old(traces[id]) + [ERROR]] && timers == old(timers)
    {
      CallHook(id, ERROR);
      UpdateKeepsTables(modules, registrations, timers, old(objects), id, objects[id]);
      UpdateKeepsObjects(old(objects), old(traces), runs, id, objects[id], traces[id], runs[id]);
    }

    /** `execute` on an object whose count has reached 0: the invariant
        then holds again. */
    method Execute(id: ObjectId) returns (outcome: Outcome)
      requires ValidOnceRun(id)
      modifies this`objects, this`traces, this`runs, this`timers, this`calls
      ensures Valid()
      ensures var o := old(objects[id]);
              var e := ExecutionOf(old(DepExports(o.dep, modules, objects)), o.cb, Lookup(mapDepToModule, o.name), o.exports);
              outcome == e.outcome && objects == old(objects)[id := AfterExecution(o, e)] &&
              traces == old(traces)[id := old(traces[id]) + e.trace] && runs == old(runs)[id := old(runs[id]) + 1] &&
              timers == old(timers) + e.queued && calls == old(calls) + e.invoked
    {
      ghost var o := objects[id];
      ghost var waiters := Lookup(mapDepToModule, o.name);
      ghost var e := ExecutionOf(DepExports(o.dep, modules, objects), o.cb, waiters, o.exports);
      assert ObjectValid(o, traces[id], runs[id] + 1);
      WaitersCounted(registrations, objects, o.name);
      CountedAppend(timers, waiters, objects);
      outcome := Run(id);
      assert Counted(timers, old(objects)) by {
        assert timers == old(timers) + e.queued;
      }
      assert objects[id] == AfterExecution(o, e) && traces[id] == old(traces[id]) + e.trace;
      UpdateKeepsTables(modules, registrations, timers, old(objects), id, objects[id]);
      UpdateKeepsObjects(old(objects), old(traces), runs, id, objects[id], traces[id], runs[id]);
    }

    /** The steps of `execute`: EXECUTING, the arguments from the exports of
        the dependencies, the callback, EXECUTED. */
    method Run(id: ObjectId) returns (outcome: Outcome)
      requires id < |objects| && id < |traces| && id < |runs| && objects[id].status != 0
      requires forall k :: k in modules ==> modules[k] < |objects|
      modifies this`objects, this`traces, this`runs, this`timers, this`calls
      ensures var o := old(objects[id]);
              var e := ExecutionOf(old(DepExports(o.dep, modules, objects)), o.cb, Lookup(mapDepToModule, o.name), o.exports);
              outcome == e.outcome && objects == old(objects)[id := AfterExecution(o, e)] &&
              traces == old(traces)[id := old(traces[id]) + e.trace] && runs == old(runs)[id := old(runs[id]) + 1] &&
              timers == old(timers) + e.queued && calls == old(calls) + e.invoked
    {
      // The arguments are read before the hook, which changes no exports.
      var arg := DepExports(objects[id].dep, modules, objects);
      ghost var o := objects[id];
      ghost var waiters := Lookup(mapDepToModule, o.name);
      ghost var e := ExecutionOf(arg, o.cb, waiters, o.exports);
      runs := runs[id := runs[id] + 1];
      CallHook(id, EXECUTING);
      assert timers == old(timers);
      if arg.Err? {
        outcome := Threw(MissingDependency(arg.error));
        assert objects[id] == AfterExecution(o, e);
      } else if objects[id].cb.None? {
        outcome := Threw(NotAFunction);
        assert objects[id] == AfterExecution(o, e);
      } else {
        Apply(id, objects[id].cb.value, arg.value);
        assert traces[id] == old(traces[id]) + [EXECUTING, EXECUTED];
        assert e.queued == waiters && timers == old(timers) + waiters;
        assert objects[id] == AfterExecution(o, e);
        outcome := Completed;
      }
      assert objects == old(objects)[id := AfterExecution(o, e)];
    }

    /** The end of a successful `execute`: `cb.apply(null, arg)` becomes the
        exports, then the status becomes EXECUTED. */
    method Apply(id: ObjectId, cb: Callback, args: seq<Export>)
      requires id < |objects| && id < |traces|
      modifies this`objects, this`traces, this`timers, this`calls
      ensures objects == old(objects)[id := old(objects[id]).(exports := ResultOf(cb, args), status := EXECUTED)]
      ensures traces == old(traces)[id := old(traces[id]) + [EXECUTED]]
      ensures timers == old(timers) + (if old(objects[id].status) != 0 then Lookup(mapDepToModule, old(objects[id].name)) else [])
      ensures calls == old(calls) + [Invocation(cb, args)]
    {
      objects := objects[id := objects[id].(exports := ResultOf(cb, args))];
      calls := calls + [Invocation(cb, args)];
      CallHook(id, EXECUTED);
    }

    /** The `depCount` setter: store the count and execute when it is 0. */
    method SetDepCount(id: ObjectId, n: int) returns (outcome: Outcome)
      requires ValidOnceSet(id, n)
      modifies this`objects, this`traces, this`runs, this`timers, this`calls
      ensures Valid()
      ensures var o := old(objects[id]).(depCount := n);
              n != 0 ==> outcome == Completed && objects == old(objects)[id := o] &&
                         traces == old(traces) && runs == old(runs) && timers == old(timers) && calls == old(calls)
      ensures var o := old(objects[id]).(depCount := n);
              var e := ExecutionOf(old(DepExports(o.dep, modules, objects)), o.cb, Lookup(mapDepToModule, o.name), o.exports);
              n == 0 ==> outcome == e.outcome && objects == old(objects)[id := AfterExecution(o, e)] &&
                         traces == old(traces)[id := old(traces[id]) + e.trace] && runs == old(runs)[id := old(runs[id]) + 1] &&
                         timers == old(timers) + e.queued && calls == old(calls) + e.invoked
    {
      ghost var args := DepExports(objects[id].dep, modules, objects);
      objects := objects[id := objects[id].(depCount := n)];
      UpdateKeepsTables(modules, registrations, timers, old(objects), id, objects[id]);
      assert DepExports(objects[id].dep, modules, objects) == args by {
        DepExportsIgnoresCounts(objects[id].dep, modules, old(objects), objects);
      }
      outcome := Completed;
      if n == 0 {
        outcome := Execute(id);
      } else {
        assert runs[id := runs[id]] == runs;
      }
    }

    /** `analyzeDep` on an object: defining the `depCount` accessor a second
        time throws; otherwise the count becomes the number of dependencies,
        an object without dependencies executes at once, and an object with
        dependencies creates a new module object for each of them, stores it
        under its name and is appended to the waiter list of that name. */
    method AnalyzeDep(id: ObjectId) returns (outcome: Outcome)
      requires Valid() && id < |objects|
      modifies this`mid, this`objects, this`traces, this`runs, this`modules, this`mapDepToModule,
               this`registrations, this`timers, this`calls
      ensures Valid()
      ensures old(objects[id].hasDepCount) ==> outcome == Threw(DepCountRedefined) && unchanged(this)
      ensures var o := old(objects[id]).(hasDepCount := true, depCount := |old(objects[id].dep)|);
              var e := ExecutionOf(Ok([]), o.cb, Lookup(mapDepToModule, o.name), o.exports);
              !old(objects[id].hasDepCount) && o.dep == [] ==>
                outcome == e.outcome && objects == old(objects)[id := AfterExecution(o, e)] &&
                traces == old(traces)[id := old(traces[id]) + e.trace] && runs == old(runs)[id := 1] &&
                timers == old(timers) + e.queued && calls == old(calls) + e.invoked &&
                mid == old(mid) && modules == old(modules) && mapDepToModule == old(mapDepToModule) &&
                registrations == old(registrations)
      ensures var o := old(objects[id]).(hasDepCount := true, depCount := |old(objects[id].dep)|);
              var n0 := |old(objects)|;
              !old(objects[id].hasDepCount) && o.dep != [] ==>
                outcome == Completed && objects == old(objects)[id := o] + Fetching(n0, o.dep) &&
                traces == old(traces) + Fresh(|o.dep|) && runs == old(runs) + Zeros(|o.dep|) &&
                timers == old(timers) && calls == old(calls) &&
                modules == StoreAll(old(modules), o.dep, n0) &&
                mapDepToModule == Register(old(mapDepToModule), id, o.dep) &&
                registrations == old(registrations) + [(id, o.dep)]
    {
      if objects[id].hasDepCount {
        return Threw(DepCountRedefined);
      }
      outcome := DefineDepCount(id);
      var deps := objects[id].dep;
      if deps == [] {
        return;
      }
      CreateDependencies(id, deps);
    }

    /** The `Object.defineProperty` and the first assignment of `analyzeDep`:
        the count becomes the number of dependencies, and the setter executes
        the object when that number is 0. */
    method DefineDepCount(id: ObjectId) returns (outcome: Outcome)
      requires Valid() && id < |objects| && !objects[id].hasDepCount
      modifies this`objects, this`traces, this`runs, this`timers, this`calls
      ensures Valid()
      ensures var o := old(objects[id]).(hasDepCount := true, depCount := |old(objects[id].dep)|);
              o.dep != [] ==> outcome == Completed && objects == old(objects)[id := o] &&
                              traces == old(traces) && runs == old(runs) && timers == old(timers) && calls == old(calls)
      ensures var o := old(objects[id]).(hasDepCount := true, depCount := |old(objects[id].dep)|);
              var e := ExecutionOf(Ok([]), o.cb, Lookup(mapDepToModule, o.name), o.exports);
              o.dep == [] ==> outcome == e.outcome && objects == old(objects)[id := AfterExecution(o, e)] &&
                              traces == old(traces)[id := old(traces[id]) + e.trace] && runs == old(runs)[id := 1] &&
                              timers == old(timers) + e.queued && calls == old(calls) + e.invoked
    {
      var n := |objects[id].dep|;
      assert ObjectValid(objects[id], traces[id], runs[id]);
      objects := objects[id := objects[id].(hasDepCount := true)];
      UpdateKeepsTables(modules, registrations, timers, old(objects), id, objects[id]);
      UpdateKeepsObjects(old(objects), traces, runs, id, objects[id].(depCount := n), traces[id], if n == 0 then 1 else 0);
      assert objects[id := objects[id].(depCount := n)] == old(objects)[id := objects[id].(depCount := n)];
      outcome := SetDepCount(id, n);
    }

    /** The loop of `analyzeDep` over the dependencies of an object whose
        count is defined and positive; the invariant holds again after it. */
    method CreateDependencies(id: ObjectId, deps: seq<string>)
      requires Valid() && id < |objects| && objects[id].hasDepCount && deps != []
      modifies this`mid, this`objects, this`traces, this`runs, this`modules, this`mapDepToModule, this`registrations
      ensures Valid()
      ensures objects == old(objects) + Fetching(|old(objects)|, deps)
      ensures traces == old(traces) + Fresh(|deps|) && runs == old(runs) + Zeros(|deps|)
      ensures modules == StoreAll(old(modules), deps, |old(objects)|)
      ensures mapDepToModule == Register(old(mapDepToModule), id, deps)
      ensures registrations == old(registrations) + [(id, deps)]
    {
      CreateEach(id, deps);
      ghost var rs := registrations + [(id, deps)];
      assert rs[..|rs| - 1] == registrations;
      registrations := rs;
      CreationKeepsObjects(old(objects), old(traces), old(runs), deps);
      CreationKeepsStore(old(modules), old(objects), deps);
      CreationKeepsTables(old(registrations), timers, old(objects), Fetching(|old(objects)|, deps), id, deps);
    }

    /** `dep.forEach(...)`: for each dependency in order, a new module
        object, stored under the dependency's name, with `id` appended to
        the waiters of that name. */
    method CreateEach(id: ObjectId, deps: seq<string>)
      requires mid == |objects|
      modifies this`mid, this`objects, this`traces, this`runs, this`modules, this`mapDepToModule
      ensures mid == |objects| && objects == old(objects) + Fetching(|old(objects)|, deps)
      ensures traces == old(traces) + Fresh(|deps|) && runs == old(runs) + Zeros(|deps|)
      ensures modules == StoreAll(old(modules), deps, |old(objects)|)
      ensures mapDepToModule == Register(old(mapDepToModule), id, deps)
    {
      ghost var n0 := |objects|;
      var i := 0;
      while i < |deps|
        invariant 0 <= i <= |deps|
        invariant objects == old(objects) + Fetching(n0, deps[..i]) && mid == |objects|
        invariant traces == old(traces) + Fresh(i) && runs == old(runs) + Zeros(i)
        invariant modules == StoreAll(old(modules), deps[..i], n0)
        invariant mapDepToModule == Register(old(mapDepToModule), id, deps[..i])
      {
        CreationStep(old(objects), old(traces), old(runs), old(modules), old(mapDepToModule), n0, id, deps, i);
        var d := deps[i];
        var created := NewModule(d);
        modules := modules[d := created];
        mapDepToModule := mapDepToModule[d := Lookup(mapDepToModule, d) + [id]];
        i := i + 1;
      }
      assert deps[..i] == deps;
    }

    /** One deferred decrement: the oldest pending `module.depCount--` runs,
        through the setter. */
    method RunTimer() returns (ran: bool, outcome: Outcome)
      requires Valid()
      modifies this`objects, this`traces, this`runs, this`timers, this`calls
      ensures Valid()
      ensures old(timers) == [] ==> !ran && outcome == Completed && unchanged(this)
      ensures old(timers) != [] ==>
                var id := old(timers[0]);
                var o := old(objects[id]).(depCount := old(objects[id].depCount) - 1);
                ran && (o.depCount != 0 ==>
                          outcome == Completed && objects == old(objects)[id := o] && timers == old(timers[1..]) &&
                          traces == old(traces) && runs == old(runs) && calls == old(calls))
      ensures old(timers) != [] ==>
                var id := old(timers[0]);
                var o := old(objects[id]).(depCount := old(objects[id].depCount) - 1);
                var e := ExecutionOf(old(DepExports(o.dep, modules, objects)), o.cb, Lookup(mapDepToModule, o.name), o.exports);
                o.depCount == 0 ==>
                  outcome == e.outcome && objects == old(objects)[id := AfterExecution(o, e)] &&
                  traces == old(traces)[id := old(traces[id]) + e.trace] && runs == old(runs)[id := 1] &&
                  timers == old(timers[1..]) + e.queued && calls == old(calls) + e.invoked
    {
      if timers == [] {
        return false, Completed;
      }
      var id := timers[0];
      timers := timers[1..];
      CountedTail(old(timers), objects);
      var n := objects[id].depCount - 1;
      assert ObjectValid(objects[id], traces[id], runs[id]);
      UpdateKeepsObjects(objects, traces, runs, id, objects[id].(depCount := n), traces[id], if n == 0 then runs[id] + 1 else runs[id]);
      outcome := SetDepCount(id, n);
      ran := true;
    }

    /** `define(name, dep, cb, errorFn)` run by the script whose source is
        `currentSrc`: after the defaulting, the object stored under the name
        is configured and analysed as `Configure` gives. A name `modules`
        does not hold throws before anything changes. */
    method Define(name: JsValue, dep: JsValue, cb: JsValue, errorFn: JsValue, currentSrc: string) returns (outcome: Outcome)
      requires Valid()
      requires DefineShapeCovered(NormalizeDefine(DefineCall(name, dep, cb, errorFn), ModulePathToModuleName(currentSrc)))
      modifies this`mid, this`objects, this`traces, this`runs, this`modules, this`mapDepToModule,
               this`registrations, this`timers, this`calls
      ensures Valid()
      ensures var a := NormalizeDefine(DefineCall(name, dep, cb, errorFn), ModulePathToModuleName(currentSrc));
              a.name.s !in old(modules) ==> outcome == Threw(NoSuchModule(a.name.s)) && unchanged(this)
      ensures var a := NormalizeDefine(DefineCall(name, dep, cb, errorFn), ModulePathToModuleName(currentSrc));
              a.name.s in old(modules) && old(objects[modules[a.name.s]].hasDepCount) ==>
                var id := old(modules[a.name.s]);
                var o := old(objects[id]).(dep := DepList(a.dep), cb := CallableOf(a.cb), errorFn := a.errorFn);
                outcome == Threw(DepCountRedefined) && objects == old(objects)[id := o] &&
                mid == old(mid) && traces == old(traces) && runs == old(runs) && modules == old(modules) &&
                mapDepToModule == old(mapDepToModule) && registrations == old(registrations) &&
                timers == old(timers) && calls == old(calls)
      ensures var a := NormalizeDefine(DefineCall(name, dep, cb, errorFn), ModulePathToModuleName(currentSrc));
              a.name.s in old(modules) && !old(objects[modules[a.name.s]].hasDepCount) && DepList(a.dep) == [] ==>
                var id := old(modules[a.name.s]);
                var o := old(objects[id]).(dep := [], cb := CallableOf(a.cb), errorFn := a.errorFn,
                                           hasDepCount := true, depCount := 0);
                var e := ExecutionOf(Ok([]), o.cb, Lookup(old(mapDepToModule), o.name), o.exports);
                outcome == e.outcome && objects == old(objects)[id := AfterExecution(o, e)] &&
                traces == old(traces)[id := old(traces[id]) + e.trace] && runs == old(runs)[id := 1] &&
                timers == old(timers) + e.queued && calls == old(calls) + e.invoked &&
                mid == old(mid) && modules == old(modules) && mapDepToModule == old(mapDepToModule) &&
                registrations == old(registrations)
      ensures var a := NormalizeDefine(DefineCall(name, dep, cb, errorFn), ModulePathToModuleName(currentSrc));
              var deps := DepList(a.dep);
              a.name.s in old(modules) && !old(objects[modules[a.name.s]].hasDepCount) && deps != [] ==>
                var id := old(modules[a.name.s]);
                var o := old(objects[id]).(dep := deps, cb := CallableOf(a.cb), errorFn := a.errorFn,
                                           hasDepCount := true, depCount := |deps|);
                var n0 := |old(objects)|;
                outcome == Completed && objects == old(objects)[id := o] + Fetching(n0, deps) &&
                traces == old(traces) + Fresh(|deps|) && runs == old(runs) + Zeros(|deps|) &&
                timers == old(timers) && calls == old(calls) &&
                modules == StoreAll(old(modules), deps, n0) &&
                mapDepToModule == Register(old(mapDepToModule), id, deps) &&
                registrations == old(registrations) + [(id, deps)]
    {
      var a := NormalizeDefine(DefineCall(name, dep, cb, errorFn), ModulePathToModuleName(currentSrc));
      var key := a.name.s;
      if key !in modules {
        return Threw(NoSuchModule(key));
      }
      outcome := Configure(modules[key], DepList(a.dep), CallableOf(a.cb), a.errorFn);
    }

    /** `require(dep, cb, errorFn)`: after the defaulting, the entry object is
        stored under its name, then configured and analysed as `Configure`
        gives. */
    method Require(dep: JsValue, cb: JsValue, errorFn: JsValue) returns (outcome: Outcome)
      requires Valid()
      requires DepShapeCovered(NormalizeRequire(RequireCall(dep, cb, errorFn)).dep)
      modifies this`mid, this`objects, this`traces, this`runs, this`modules, this`mapDepToModule,
               this`registrations, this`timers, this`calls
      ensures Valid()
      ensures var a := NormalizeRequire(RequireCall(dep, cb, errorFn));
              var id := mainEntry;
              var entered := old(modules)[old(objects[mainEntry].name) := id];
              old(objects[mainEntry].hasDepCount) ==>
                var o := old(objects[id]).(dep := DepList(a.dep), cb := CallableOf(a.cb), errorFn := a.errorFn);
                outcome == Threw(DepCountRedefined) && objects == old(objects)[id := o] &&
                mid == old(mid) && traces == old(traces) && runs == old(runs) && modules == entered &&
                mapDepToModule == old(mapDepToModule) && registrations == old(registrations) &&
                timers == old(timers) && calls == old(calls)
      ensures var a := NormalizeRequire(RequireCall(dep, cb, errorFn));
              var id := mainEntry;
              var entered := old(modules)[old(objects[mainEntry].name) := id];
              !old(objects[mainEntry].hasDepCount) && DepList(a.dep) == [] ==>
                var o := old(objects[id]).(dep := [], cb := CallableOf(a.cb), errorFn := a.errorFn,
                                           hasDepCount := true, depCount := 0);
                var e := ExecutionOf(Ok([]), o.cb, Lookup(old(mapDepToModule), o.name), o.exports);
                outcome == e.outcome && objects == old(objects)[id := AfterExecution(o, e)] &&
                traces == old(traces)[id := old(traces[id]) + e.trace] && runs == old(runs)[id := 1] &&
                timers == old(timers) + e.queued && calls == old(calls) + e.invoked &&
                mid == old(mid) && modules == entered && mapDepToModule == old(mapDepToModule) &&
                registrations == old(registrations)
      ensures var a := NormalizeRequire(RequireCall(dep, cb, errorFn));
              var id := mainEntry;
              var entered := old(modules)[old(objects[mainEntry].name) := id];
              var deps := DepList(a.dep);
              !old(objects[mainEntry].hasDepCount) && deps != [] ==>
                var o := old(objects[id]).(dep := deps, cb := CallableOf(a.cb), errorFn := a.errorFn,
                                           hasDepCount := true, depCount := |deps|);
                var n0 := |old(objects)|;
                outcome == Completed && objects == old(objects)[id := o] + Fetching(n0, deps) &&
                traces == old(traces) + Fresh(|deps|) && runs == old(runs) + Zeros(|deps|) &&
                timers == old(timers) && calls == old(calls) &&
                modules == StoreAll(entered, deps, n0) &&
                mapDepToModule == Register(old(mapDepToModule), id, deps) &&
                registrations == old(registrations) + [(id, deps)]
    {
      var a := NormalizeRequire(RequireCall(dep, cb, errorFn));
      modules := modules[objects[mainEntry].name := mainEntry];
      outcome := Configure(mainEntry, DepList(a.dep), CallableOf(a.cb), a.errorFn);
    }

    /** What `define` and `require` do to the object they have found: the
        three assignments `module.dep = dep; module.cb = cb; module.errorFn =
        errorFn`, then `analyzeDep`, with the three outcomes `AnalyzeDep`
        gives for the object so configured. */
    method Configure(id: ObjectId, deps: seq<string>, cb: Option<Callback>, errorFn: JsValue) returns (outcome: Outcome)
      requires Valid() && id < |objects|
      modifies this`mid, this`objects, this`traces, this`runs, this`modules, this`mapDepToModule,
               this`registrations, this`timers, this`calls
      ensures Valid()
      ensures old(objects[id].hasDepCount) ==>
                var o := old(objects[id]).(dep := deps, cb := cb, errorFn := errorFn);
                outcome == Threw(DepCountRedefined) && objects == old(objects)[id := o] &&
                mid == old(mid) && traces == old(traces) && runs == old(runs) && modules == old(modules) &&
                mapDepToModule == old(mapDepToModule) && registrations == old(registrations) &&
                timers == old(timers) && calls == old(calls)
      ensures !old(objects[id].hasDepCount) && deps == [] ==>
                var o := old(objects[id]).(dep := [], cb := cb, errorFn := errorFn, hasDepCount := true, depCount := 0);
                var e := ExecutionOf(Ok([]), o.cb, Lookup(old(mapDepToModule), o.name), o.exports);
                outcome == e.outcome && objects == old(objects)[id := AfterExecution(o, e)] &&
                traces == old(traces)[id := old(traces[id]) + e.trace] && runs == old(runs)[id := 1] &&
                timers == old(timers) + e.queued && calls == old(calls) + e.invoked &&
                mid == old(mid) && modules == old(modules) && mapDepToModule == old(mapDepToModule) &&
                registrations == old(registrations)
      ensures !old(objects[id].hasDepCount) && deps != [] ==>
                var o := old(objects[id]).(dep := deps, cb := cb, errorFn := errorFn, hasDepCount := true, depCount := |deps|);
                var n0 := |old(objects)|;
                outcome == Completed && objects == old(objects)[id := o] + Fetching(n0, deps) &&
                traces == old(traces) + Fresh(|deps|) && runs == old(runs) + Zeros(|deps|) &&
                timers == old(timers) && calls == old(calls) &&
                modules == StoreAll(old(modules), deps, n0) &&
                mapDepToModule == Register(old(mapDepToModule), id, deps) &&
                registrations == old(registrations) + [(id, deps)]
    {
      Provide(id, deps, cb, errorFn);
      outcome := AnalyzeDep(id);
    }

    /** The three assignments `module.dep = dep; module.cb = cb;
        module.errorFn = errorFn` of `define` and `require`. */
    method Provide(id: ObjectId, deps: seq<string>, cb: Option<Callback>, errorFn: JsValue)
      requires Valid() && id < |objects|
      modifies this`objects
      ensures Valid()
      ensures objects == old(objects)[id := old(objects[id]).(dep := deps, cb := cb, errorFn := errorFn)]
    {
      objects := objects[id := objects[id].(dep := deps, cb := cb, errorFn := errorFn)];
      UpdateKeepsTables(modules, registrations, timers, old(objects), id, objects[id]);
      UpdateKeepsObjects(old(objects), traces, runs, id, objects[id], traces[id], runs[id]);
    }
  }

  /** The arguments of an execution do not depend on counts, statuses or
      dependency lists. */
  lemma DepExportsIgnoresCounts(deps: seq<string>, mods: map<string, ObjectId>, before: seq<Module>, after: seq<Module>)
    requires forall k :: k in mods ==> mods[k] < |before|
    requires |before| == |after| && forall i :: 0 <= i < |before| ==> before[i].exports == after[i].exports
    ensures DepExports(deps, mods, before) == DepExports(deps, mods, after)
  {
  }

  /** The arguments of `define` the model covers: a string name once the
      defaulting is done, and dependencies that are an array or falsy. */
  predicate DefineShapeCovered(a: DefineCall)
  {
    a.name.Str? && DepShapeCovered(a.dep)
  }
}
