/** The first loader: modules are tracked by a per-name load state, and every
    `require` call registers its callbacks on a group of names. Each time a
    script reports that it loaded or failed, every group that has not fired yet
    is judged again; a group fires its success callbacks (with the exports of
    its members) or its failure callbacks, and is then marked done. */
module FakeRequire {
  import opened JsValues
  import opened Strings

  /** Load state of one module name. */
  datatype State = Pending | Resolve | Reject

  /** The callbacks registered on one group of names, and whether the group
      has fired since it was last (re)armed. */
  datatype Group = Group(successFns: seq<Callback>, failFns: seq<Callback>, done: bool)

  /** One invocation of a user callback, in the order the loader makes them. */
  datatype Call =
    | SuccessCall(fn: Callback, args: seq<Export>)
    | FailureCall(fn: Callback)
    | FactoryCall(fn: Callback)

  /** What `define` stores in `globalModules`. */
  datatype ModuleRecord = ModuleRecord(src: string, name: string, cb: Callback, exports: Export, id: nat)

  /** The character that joins the names of a group into its key. */
  const KeySeparator: char := '&'

  const FirstArgumentError := "The first Argument of require must be an Array"
  const SecondArgumentError := "The second Argument of require must be a function"
  const ThirdArgumentError := "The third Argument of require must be a function"
  const DefineArgumentError := "The argument for define function is wrong."

  // ---------------------------------------------------------------------
  // Judging a group

  /** A member holds its group back when it is tracked as REJECT or PENDING;
      an untracked name reads as `undefined`, which is neither. */
  predicate Blocks(state: map<string, State>, n: string)
  {
    n in state && state[n] != Resolve
  }

  /** The scan of `judgeModulesState` over the names of a group: the first
      name that is REJECT or PENDING decides, and RESOLVE when there is none. */
  function JudgeNames(names: seq<string>, state: map<string, State>): State
  {
    if names == [] then Resolve
    else if names[0] in state && state[names[0]] == Reject then Reject
    else if names[0] in state && state[names[0]] == Pending then Pending
    else JudgeNames(names[1..], state)
  }

  /** `judgeModulesState(key, state)`: the members are `key.split('&')`. */
  function JudgeModulesState(key: string, state: map<string, State>): State
  {
    JudgeNames(Split(key, KeySeparator), state)
  }

  /** A group is RESOLVE exactly when none of its members blocks it. */
  lemma {:induction false} JudgeResolveExactly(names: seq<string>, state: map<string, State>)
    ensures JudgeNames(names, state) == Resolve <==> forall i :: 0 <= i < |names| ==> !Blocks(state, names[i])
  {
    if names != [] {
      JudgeResolveExactly(names[1..], state);
      if !Blocks(state, names[0]) {
        assert forall i :: 1 <= i < |names| ==> names[i] == names[1..][i - 1];
      }
    }
  }

  /** The verdict is the state of the first blocking member. */
  lemma {:induction false} JudgeFirstBlocker(names: seq<string>, state: map<string, State>, i: nat)
    requires i < |names| && Blocks(state, names[i])
    requires forall j :: 0 <= j < i ==> !Blocks(state, names[j])
    ensures JudgeNames(names, state) == state[names[i]]
  {
    if i > 0 {
      assert !Blocks(state, names[0]);
      JudgeFirstBlocker(names[1..], state, i - 1);
    }
  }

  /** Conversely, a verdict other than RESOLVE comes from a first blocking
      member in that state. */
  lemma {:induction false} JudgeComesFromFirstBlocker(names: seq<string>, state: map<string, State>)
    requires JudgeNames(names, state) != Resolve
    ensures exists i :: 0 <= i < |names| && Blocks(state, names[i]) && state[names[i]] == JudgeNames(names, state) &&
                        forall j :: 0 <= j < i ==> !Blocks(state, names[j])
  {
    if Blocks(state, names[0]) {
      assert Blocks(state, names[0]) && state[names[0]] == JudgeNames(names, state);
    } else {
      JudgeComesFromFirstBlocker(names[1..], state);
      var i :| 0 <= i < |names[1..]| && Blocks(state, names[1..][i]) &&
               state[names[1..][i]] == JudgeNames(names[1..], state) &&
               forall j :: 0 <= j < i ==> !Blocks(state, names[1..][j]);
      assert forall j :: 0 <= j < i + 1 ==> !Blocks(state, names[j]) by {
        forall j | 0 <= j < i + 1 ensures !Blocks(state, names[j]) {
          if j > 0 { assert names[j] == names[1..][j - 1]; }
        }
      }
      assert Blocks(state, names[i + 1]) && state[names[i + 1]] == JudgeNames(names, state);
    }
  }

  /** A PENDING member placed before a REJECT member hides the rejection. */
  lemma PendingHidesLaterReject(names: seq<string>, state: map<string, State>, i: nat, k: nat)
    requires i < k < |names|
    requires names[i] in state && state[names[i]] == Pending
    requires names[k] in state && state[names[k]] == Reject
    requires forall j :: 0 <= j < i ==> !Blocks(state, names[j])
    ensures JudgeNames(names, state) == Pending
  {
    JudgeFirstBlocker(names, state, i);
  }

  // ---------------------------------------------------------------------
  // Firing one group

  /** `globalModules[k].exports` for each `k` in order, or `None` when some
      `k` has no entry (reading `.exports` of `undefined` throws). */
  function GatherExports(names: seq<string>, gm: map<string, ModuleRecord>): (r: Option<seq<Export>>)
    ensures r.Some? <==> forall i :: 0 <= i < |names| ==> names[i] in gm
    ensures r.Some? ==> |r.value| == |names| && forall i :: 0 <= i < |names| ==> r.value[i] == gm[names[i]].exports
  {
    if names == [] then Some([])
    else
      var init := names[..|names| - 1];
      var last := names[|names| - 1];
      match GatherExports(init, gm)
      case None => None
      case Some(args) => if last in gm then Some(args + [gm[last].exports]) else None
  }

  /** Every function of `fns`, in order, applied to `args`. */
  function SuccessCalls(fns: seq<Callback>, args: seq<Export>): (r: seq<Call>)
    ensures |r| == |fns|
    ensures forall i :: 0 <= i < |fns| ==> r[i] == SuccessCall(fns[i], args)
  {
    if fns == [] then [] else SuccessCalls(fns[..|fns| - 1], args) + [SuccessCall(fns[|fns| - 1], args)]
  }

  /** Every function of `fns`, in order, applied to no argument. */
  function FailureCalls(fns: seq<Callback>): (r: seq<Call>)
    ensures |r| == |fns|
    ensures forall i :: 0 <= i < |fns| ==> r[i] == FailureCall(fns[i])
  {
    if fns == [] then [] else FailureCalls(fns[..|fns| - 1]) + [FailureCall(fns[|fns| - 1])]
  }

  datatype Settled = Settled(group: Group, calls: seq<Call>)

  /** What one pass of the scan does to one group: `None` when building the
      arguments throws. */
  function Settle(key: string, g: Group, state: map<string, State>, gm: map<string, ModuleRecord>): Option<Settled>
  {
    if g.done then Some(Settled(g, []))
    else
      match JudgeModulesState(key, state)
      case Resolve =>
        (match GatherExports(Split(key, KeySeparator), gm)
         case None => None
         case Some(args) => Some(Settled(g.(done := true), SuccessCalls(g.successFns, args))))
      case Reject => Some(Settled(g.(done := true), FailureCalls(g.failFns)))
      case Pending => Some(Settled(g, []))
  }

  /** A group that is done is left alone and calls nothing. */
  lemma SettleSkipsDone(key: string, g: Group, state: map<string, State>, gm: map<string, ModuleRecord>)
    requires g.done
    ensures Settle(key, g, state, gm) == Some(Settled(g, []))
  {
  }

  /** What firing means for one group that is not done: it fires exactly when
      its verdict is not PENDING; a group that fires keeps its callbacks, ends
      done, and calls either all its success callbacks, each with the exports
      of `key.split('&')` in order, or all its failure callbacks, never a mix.
      Building the arguments throws only when a member has no entry in
      `globalModules`. */
  lemma {:induction false} SettleFires(key: string, g: Group, state: map<string, State>, gm: map<string, ModuleRecord>)
    requires !g.done
    ensures var names := Split(key, KeySeparator);
            var v := JudgeModulesState(key, state);
            match Settle(key, g, state, gm)
            case None =>
              v == Resolve && exists i :: 0 <= i < |names| && names[i] !in gm
            case Some(s) =>
              s.group.successFns == g.successFns && s.group.failFns == g.failFns &&
              (s.group.done <==> v != Pending) &&
              (v == Pending ==> s.calls == []) &&
              (v == Reject ==> s.calls == FailureCalls(g.failFns)) &&
              (v == Resolve ==>
                 (forall i :: 0 <= i < |names| ==> names[i] in gm) &&
                 |s.calls| == |g.successFns| &&
                 forall c :: 0 <= c < |s.calls| ==>
                   s.calls[c].SuccessCall? && s.calls[c].fn == g.successFns[c] &&
                   |s.calls[c].args| == |names| &&
                   forall i :: 0 <= i < |names| ==> s.calls[c].args[i] == gm[names[i]].exports)
  {
    var names := Split(key, KeySeparator);
    match Settle(key, g, state, gm)
    case None =>
      assert GatherExports(names, gm).None?;
    case Some(s) =>
  }

  /** No group fires both kinds of callback in one pass. */
  lemma {:induction false} SettleIsOneKind(key: string, g: Group, state: map<string, State>, gm: map<string, ModuleRecord>)
    requires Settle(key, g, state, gm).Some?
    ensures var cs := Settle(key, g, state, gm).value.calls;
            (forall c :: 0 <= c < |cs| ==> cs[c].SuccessCall?) || (forall c :: 0 <= c < |cs| ==> cs[c].FailureCall?)
  {
    if !g.done {
      SettleFires(key, g, state, gm);
    }
  }

  // ---------------------------------------------------------------------
  // The scan over all groups

  datatype ScanResult = ScanResult(events: map<string, Group>, calls: seq<Call>, completed: bool)

  predicate Distinct(keys: seq<string>)
  {
    forall i, j :: 0 <= i < j < |keys| ==> keys[i] != keys[j]
  }

  predicate Covers(keys: seq<string>, events: map<string, Group>)
  {
    forall i :: 0 <= i < |keys| ==> keys[i] in events
  }

  /** `triggerModulesState` from the `i`-th key on: each group in turn is
      settled; a throw stops the scan and leaves the remaining groups as they
      are. */
  function Scan(keys: seq<string>, i: nat, events: map<string, Group>, state: map<string, State>,
                gm: map<string, ModuleRecord>, calls: seq<Call>): ScanResult
    requires i <= |keys| && Covers(keys, events)
    decreases |keys| - i
  {
    if i == |keys| then ScanResult(events, calls, true)
    else
      var key := keys[i];
      match Settle(key, events[key], state, gm)
      case None => ScanResult(events, calls, false)
      case Some(s) => Scan(keys, i + 1, events[key := s.group], state, gm, calls + s.calls)
  }

  /** The calls that settling each key in turn makes, when none throws. */
  function CallsOf(keys: seq<string>, events: map<string, Group>, state: map<string, State>,
                   gm: map<string, ModuleRecord>): seq<Call>
    requires Covers(keys, events)
  {
    if keys == [] then []
    else
      (match Settle(keys[0], events[keys[0]], state, gm)
       case None => []
       case Some(s) => s.calls) + CallsOf(keys[1..], events, state, gm)
  }

  /** A pass keeps the set of groups and leaves alone every group that was
      done and every group whose key it does not reach. */
  lemma {:induction false} ScanFrame(keys: seq<string>, i: nat, events: map<string, Group>, state: map<string, State>,
                                     gm: map<string, ModuleRecord>, calls: seq<Call>)
    requires i <= |keys| && Covers(keys, events)
    ensures var r := Scan(keys, i, events, state, gm, calls);
            r.events.Keys == events.Keys &&
            forall k :: k in events && (events[k].done || k !in keys[i..]) ==> r.events[k] == events[k]
    decreases |keys| - i
  {
    if i < |keys| {
      var key := keys[i];
      match Settle(key, events[key], state, gm)
      case None =>
      case Some(s) =>
        var ev := events[key := s.group];
        ScanFrame(keys, i + 1, ev, state, gm, calls + s.calls);
        assert keys[i..] == [key] + keys[i + 1..];
        if events[key].done {
          SettleSkipsDone(key, events[key], state, gm);
        }
    }
  }

  /** For distinct keys, a pass throws exactly when the arguments of some
      group it reaches cannot be built. */
  lemma {:induction false} ScanCompletesExactly(keys: seq<string>, i: nat, events: map<string, Group>, state: map<string, State>,
                                                gm: map<string, ModuleRecord>, calls: seq<Call>)
    requires i <= |keys| && Covers(keys, events) && Distinct(keys)
    ensures Scan(keys, i, events, state, gm, calls).completed <==>
            forall j :: i <= j < |keys| ==> Settle(keys[j], events[keys[j]], state, gm).Some?
    decreases |keys| - i
  {
    if i < |keys| {
      var key := keys[i];
      match Settle(key, events[key], state, gm)
      case None =>
      case Some(s) =>
        var ev := events[key := s.group];
        ScanCompletesExactly(keys, i + 1, ev, state, gm, calls + s.calls);
        assert forall j :: i < j < |keys| ==> ev[keys[j]] == events[keys[j]];
    }
  }

  /** For distinct keys, a pass that does not throw leaves every group as
      settling it alone would. */
  lemma {:induction false} ScanSettlesEach(keys: seq<string>, i: nat, events: map<string, Group>, state: map<string, State>,
                                           gm: map<string, ModuleRecord>, calls: seq<Call>)
    requires i <= |keys| && Covers(keys, events) && Distinct(keys)
    requires Scan(keys, i, events, state, gm, calls).completed
    ensures var r := Scan(keys, i, events, state, gm, calls);
            r.events.Keys == events.Keys &&
            forall j :: i <= j < |keys| ==>
              (Settle(keys[j], events[keys[j]], state, gm).Some? &&
               r.events[keys[j]] == Settle(keys[j], events[keys[j]], state, gm).value.group)
    decreases |keys| - i
  {
    if i < |keys| {
      var key := keys[i];
      var s := Settle(key, events[key], state, gm).value;
      var ev := events[key := s.group];
      ScanSettlesEach(keys, i + 1, ev, state, gm, calls + s.calls);
      ScanFrame(keys, i + 1, ev, state, gm, calls + s.calls);
      assert forall j :: i < j < |keys| ==> ev[keys[j]] == events[keys[j]];
      assert key !in keys[i + 1..];
    }
  }

  /** For distinct keys, a pass that does not throw makes the calls of the
      groups in key order. */
  lemma {:induction false} ScanCallsInOrder(keys: seq<string>, i: nat, events: map<string, Group>, state: map<string, State>,
                                            gm: map<string, ModuleRecord>, calls: seq<Call>)
    requires i <= |keys| && Covers(keys, events) && Distinct(keys)
    requires Scan(keys, i, events, state, gm, calls).completed
    ensures Scan(keys, i, events, state, gm, calls).calls == calls + CallsOf(keys[i..], events, state, gm)
    decreases |keys| - i
  {
    if i < |keys| {
      var key := keys[i];
      var s := Settle(key, events[key], state, gm).value;
      var ev := events[key := s.group];
      ScanCallsInOrder(keys, i + 1, ev, state, gm, calls + s.calls);
      assert forall j :: i < j < |keys| ==> ev[keys[j]] == events[keys[j]];
      assert keys[i..][1..] == keys[i + 1..];
      CallsOfFrame(keys[i + 1..], ev, events, state, gm);
    }
  }

  lemma {:induction false} CallsOfFrame(keys: seq<string>, e1: map<string, Group>, e2: map<string, Group>,
                                        state: map<string, State>, gm: map<string, ModuleRecord>)
    requires Covers(keys, e1) && Covers(keys, e2)
    requires forall j :: 0 <= j < |keys| ==> e1[keys[j]] == e2[keys[j]]
    ensures CallsOf(keys, e1, state, gm) == CallsOf(keys, e2, state, gm)
  {
    if keys != [] {
      CallsOfFrame(keys[1..], e1, e2, state, gm);
    }
  }

  // ---------------------------------------------------------------------
  // listen

  /** The state table after `listen`: every dependency that was not yet
      tracked becomes PENDING, every tracked one keeps its state. */
  function WithPending(state: map<string, State>, deps: seq<string>): (r: map<string, State>)
    ensures forall n :: n in r <==> n in state || n in deps
    ensures forall n :: n in state ==> r[n] == state[n]
    ensures forall n :: n in deps && n !in state ==> r[n] == Pending
  {
    if deps == [] then state
    else
      var s := WithPending(state, deps[..|deps| - 1]);
      var d := deps[|deps| - 1];
      assert forall n :: n in deps <==> n in deps[..|deps| - 1] || n == d;
      if d in s then s else s[d := Pending]
  }

  /** The group under a key once `listen` has registered `callback` and, when
      there is one, `errback` on it. */
  function AddListener(prev: Option<Group>, callback: Callback, errback: Option<Callback>): (g: Group)
    ensures var base := if prev.Some? then prev.value else Group([], [], false);
            g.successFns == base.successFns + [callback] &&
            g.failFns == base.failFns + (if errback.Some? then [errback.value] else []) &&
            !g.done
  {
    var base := if prev.Some? then prev.value else Group([], [], false);
    Group(base.successFns + [callback], base.failFns + (if errback.Some? then [errback.value] else []), false)
  }

  /** Listening again under a key whose group has already fired re-arms the
      group, so the callbacks registered earlier fire once more, before the new
      one. */
  lemma RelistenRefiresEarlierCallbacks(key: string, fired: Group, f: Callback, state: map<string, State>,
                                        gm: map<string, ModuleRecord>)
    requires fired.done && fired.successFns != []
    requires JudgeModulesState(key, state) == Resolve
    requires forall i :: 0 <= i < |Split(key, KeySeparator)| ==> Split(key, KeySeparator)[i] in gm
    ensures var r := Settle(key, AddListener(Some(fired), f, None), state, gm);
            r.Some? && r.value.calls[0].SuccessCall? && r.value.calls[0].fn == fired.successFns[0] &&
            r.value.calls[|fired.successFns|].fn == f
  {
    SettleFires(key, AddListener(Some(fired), f, None), state, gm);
  }

  // ---------------------------------------------------------------------
  // Argument checks and path helper

  datatype RequireArgs = RequireArgs(deps: seq<string>, callback: Callback, errback: Option<Callback>)

  /** The synchronous checks of `require`, in the order the code makes them. */
  function CheckRequireArgs(deps: JsValue, callback: JsValue, errback: JsValue): (r: Result<RequireArgs, string>)
    ensures r.Ok? <==> deps.Arr? && callback.Fn? && (errback.Fn? || !Truthy(errback))
    ensures !deps.Arr? ==> r == Err(FirstArgumentError)
    ensures deps.Arr? && !callback.Fn? ==> r == Err(SecondArgumentError)
    ensures deps.Arr? && callback.Fn? && Truthy(errback) && !errback.Fn? ==> r == Err(ThirdArgumentError)
    ensures r.Ok? ==> r.value.deps == deps.items && r.value.callback == callback.f &&
                      (r.value.errback.Some? <==> errback.Fn?) &&
                      (errback.Fn? ==> r.value.errback.value == errback.f)
  {
    if !deps.Arr? then Err(FirstArgumentError)
    else if !callback.Fn? then Err(SecondArgumentError)
    else if Truthy(errback) && !errback.Fn? then Err(ThirdArgumentError)
    else Ok(RequireArgs(deps.items, callback.f, if errback.Fn? then Some(errback.f) else None))
  }

  datatype DefineArgs = DefineArgs(name: JsValue, deps: Option<seq<string>>, callback: Callback)

  /** The three call shapes `define` accepts: `define(cb)`, `define(name, cb)`
      and `define(deps, cb)`; anything else is refused. */
  function NormalizeDefine(name: JsValue, deps: JsValue, callback: JsValue): (r: Result<DefineArgs, string>)
    ensures r.Ok? <==> (name.Fn? && !Truthy(deps) && !Truthy(callback)) ||
                       ((name.Str? || name.Arr?) && deps.Fn?)
    ensures r.Err? ==> r.error == DefineArgumentError
    ensures r.Ok? ==> r.value.name == (if name.Str? then name else Undefined) &&
                      (r.value.deps.Some? <==> name.Arr?) &&
                      (name.Arr? ==> r.value.deps.value == name.items) &&
                      r.value.callback == (if name.Fn? then name.f else deps.f)
  {
    if name.Fn? && !Truthy(deps) && !Truthy(callback) then Ok(DefineArgs(Undefined, None, name.f))
    else if name.Str? && deps.Fn? then Ok(DefineArgs(name, None, deps.f))
    else if name.Arr? && deps.Fn? then Ok(DefineArgs(Undefined, Some(name.items), deps.f))
    else Err(DefineArgumentError)
  }

  /** The key `define` stores its record under: the given name when it is
      truthy, otherwise the module name of the running script's `src`. */
  function RecordKey(a: DefineArgs, src: string): string
  {
    if a.name.Str? && a.name.s != "" then a.name.s else KeyOf(GetModuleNameFromSrc(src))
  }

  /** `getModuleNameFromSrc`: the last path segment up to its first dot, or
      `undefined` for a falsy (empty) argument. */
  function GetModuleNameFromSrc(name: string): Option<string>
  {
    if name == "" then None else Some(Split(AfterLastSeparator(name), '.')[0])
  }

  /** The name taken from a path is a dot-free, separator-free run of the path
      that starts at the beginning or right after the last separator. */
  lemma ModuleNameFromSrcShape(name: string)
    requires name != ""
    ensures var r := GetModuleNameFromSrc(name).value;
            var p := |name| - |AfterLastSeparator(name)|;
            p + |r| <= |name| && name[p..p + |r|] == r &&
            (p == 0 || IsSeparator(name[p - 1])) &&
            (forall i :: p <= i < |name| ==> !IsSeparator(name[i])) &&
            '.' !in r && (p + |r| == |name| || name[p + |r|] == '.')
  {
    var t := AfterLastSeparator(name);
    var r := Split(t, '.')[0];
    assert GetModuleNameFromSrc(name).value == r;
    FirstPiece(t, '.');
    var p := |name| - |t|;
    PieceOfSuffix(name, p, t, r);
  }

  /** A prefix of the suffix of `name` from `p` on, as positions of `name`. */
  lemma PieceOfSuffix(name: string, p: nat, t: string, r: string)
    requires p + |t| == |name| && t == name[p..]
    requires r <= t && (|r| == |t| || t[|r|] == '.')
    requires forall i :: 0 <= i < |t| ==> !IsSeparator(t[i])
    ensures p + |r| <= |name| && name[p..p + |r|] == r
    ensures forall i :: p <= i < |name| ==> !IsSeparator(name[i])
    ensures p + |r| == |name| || name[p + |r|] == '.'
  {
    assert forall i :: p <= i < |name| ==> name[i] == t[i - p];
  }

  /** A plain name (no separator, no dot) is its own module name; hence the
      helper is idempotent on every non-empty result. */
  lemma PlainModuleName(name: string)
    requires name != ""
    requires '.' !in name && forall i :: 0 <= i < |name| ==> !IsSeparator(name[i])
    ensures GetModuleNameFromSrc(name) == Some(name)
  {
    SplitWithoutSeparator(name, '.');
  }

  lemma ModuleNameFromSrcIdempotent(name: string)
    requires GetModuleNameFromSrc(name).Some? && GetModuleNameFromSrc(name).value != ""
    ensures GetModuleNameFromSrc(GetModuleNameFromSrc(name).value) == GetModuleNameFromSrc(name)
  {
    var t := AfterLastSeparator(name);
    var r := Split(t, '.')[0];
    FirstPiece(t, '.');
    SeparatorFreePrefix(t, r);
    PlainModuleName(r);
  }

  lemma SeparatorFreePrefix(t: string, r: string)
    requires r <= t && forall i :: 0 <= i < |t| ==> !IsSeparator(t[i])
    ensures forall i :: 0 <= i < |r| ==> !IsSeparator(r[i])
  {
    assert forall i :: 0 <= i < |r| ==> r[i] == t[i];
  }

  /** The key under which `loadModule(dep)` reports the load of `dep`. */
  function ScriptKey(dep: string): string
  {
    KeyOf(GetModuleNameFromSrc(dep))
  }

  function ScriptKeys(deps: seq<string>): (r: seq<string>)
    ensures |r| == |deps| && forall i :: 0 <= i < |deps| ==> r[i] == ScriptKey(deps[i])
  {
    if deps == [] then [] else ScriptKeys(deps[..|deps| - 1]) + [ScriptKey(deps[|deps| - 1])]
  }

  // ---------------------------------------------------------------------
  // The loader's tables

  /** The closure shared by `require`, `define` and `moduleEvent`. */
  class Loader {
    var globalModules: map<string, ModuleRecord>
    var mid: nat
    /** `moduleEvent.events`, with `keys` giving its enumeration order. */
    var events: map<string, Group>
    var keys: seq<string>
    /** `moduleEvent.state` */
    var state: map<string, State>
    /** Every callback invocation so far, in order. */
    var calls: seq<Call>
    /** The key of every script `loadModule` has injected, in order. */
    var requested: seq<string>

    ghost predicate Valid()
      reads this
    {
      Distinct(keys) && Covers(keys, events) && (forall k :: k in events ==> k in keys) &&
      forall k :: k in globalModules ==> 1 <= globalModules[k].id <= mid
    }

    constructor ()
      ensures Valid()
      ensures globalModules == map[] && mid == 0 && events == map[] && keys == [] && state == map[]
      ensures calls == [] && requested == []
    {
      globalModules, mid, events, keys, state, calls, requested := map[], 0, map[], [], map[], [], [];
    }

    /** `moduleEvent.listen(deps, callback, errback)`. */
    method Listen(deps: seq<string>, callback: Callback, errback: Option<Callback>)
      requires Valid()
      modifies this`state, this`events, this`keys
      ensures Valid()
      ensures state == WithPending(old(state), deps)
      ensures var key := Join(deps, KeySeparator);
              events == old(events)[key := AddListener(if key in old(events) then Some(old(events)[key]) else None, callback, errback)] &&
              keys == old(keys) + (if key in old(events) then [] else [key])
    {
      var i := 0;
      while i < |deps|
        invariant 0 <= i <= |deps|
        invariant state == WithPending(old(state), deps[..i])
        invariant events == old(events) && keys == old(keys)
      {
        if deps[i] !in state {
          state := state[deps[i] := Pending];
        }
        assert deps[..i + 1][..i] == deps[..i];
        i := i + 1;
      }
      assert deps[..i] == deps;
      var key := Join(deps, KeySeparator);
      var prev: Option<Group> := None;
      if key in events {
        prev := Some(events[key]);
      } else {
        assert forall j :: 0 <= j < |keys| ==> keys[j] != key;
        keys := keys + [key];
      }
      events := events[key := AddListener(prev, callback, errback)];
    }

    /** `moduleEvent.trigger(name, st)`. */
    method Trigger(name: string, st: State) returns (completed: bool)
      requires Valid()
      modifies this`state, this`events, this`calls
      ensures Valid() && events.Keys == old(events).Keys
      ensures state == old(state)[name := st]
      ensures ScanResult(events, calls, completed) == Scan(keys, 0, old(events), state, globalModules, old(calls))
    {
      state := state[name := st];
      completed := TriggerModulesState();
    }

    /** `moduleEvent.triggerModulesState()`; `completed` is false when building
        the arguments of a group throws, which ends the scan. */
    method TriggerModulesState() returns (completed: bool)
      requires Valid()
      modifies this`events, this`calls
      ensures Valid() && events.Keys == old(events).Keys
      ensures ScanResult(events, calls, completed) == Scan(keys, 0, old(events), state, globalModules, old(calls))
    {
      ghost var goal := Scan(keys, 0, old(events), state, globalModules, old(calls));
      var i := 0;
      while i < |keys|
        invariant 0 <= i <= |keys|
        invariant events.Keys == old(events).Keys && Covers(keys, events)
        invariant Scan(keys, i, events, state, globalModules, calls) == goal
      {
        var ok := SettleGroup(keys[i]);
        if !ok {
          return false;
        }
        i := i + 1;
      }
      completed := true;
    }

    /** The body of the `for (let key in this.events)` loop, for one key. */
    method SettleGroup(key: string) returns (ok: bool)
      requires key in events
      modifies this`events, this`calls
      ensures var st := Settle(key, old(events)[key], state, globalModules);
              ok == st.Some? &&
              (ok ==> events == old(events)[key := st.value.group] && calls == old(calls) + st.value.calls) &&
              (!ok ==> events == old(events) && calls == old(calls))
    {
      var modules := events[key];
      if modules.done {
        assert events[key := modules] == events && calls + [] == calls;
        return true;
      }
      var res := JudgeModulesState(key, state);
      if res == Resolve {
        var arg := CollectExports(key);
        if arg.None? {
          return false;
        }
        CallSuccessFns(modules.successFns, arg.value);
        events := events[key := modules.(done := true)];
      } else if res == Reject {
        CallFailFns(modules.failFns);
        events := events[key := modules.(done := true)];
      } else {
        assert events[key := modules] == events && calls + [] == calls;
      }
      ok := true;
    }

    /** The arguments of a resolved group: `globalModules[k].exports` for each
        `k` of `key.split('&')`, or `None` when reading one of them throws. */
    method CollectExports(key: string) returns (arg: Option<seq<Export>>)
      ensures arg == GatherExports(Split(key, KeySeparator), globalModules)
    {
      var names := Split(key, KeySeparator);
      var args: seq<Export> := [];
      var j := 0;
      while j < |names|
        invariant 0 <= j <= |names|
        invariant GatherExports(names[..j], globalModules) == Some(args)
      {
        if names[j] !in globalModules {
          assert GatherExports(names, globalModules).None?;
          return None;
        }
        assert names[..j + 1][..j] == names[..j];
        args := args + [globalModules[names[j]].exports];
        j := j + 1;
      }
      assert names[..j] == names;
      arg := Some(args);
    }

    /** `modules.successFns.forEach(fn => fn.apply(this, arg))` */
    method CallSuccessFns(fns: seq<Callback>, arg: seq<Export>)
      modifies this`calls
      ensures calls == old(calls) + SuccessCalls(fns, arg)
    {
      var f := 0;
      while f < |fns|
        invariant 0 <= f <= |fns|
        invariant calls == old(calls) + SuccessCalls(fns[..f], arg)
      {
        assert fns[..f + 1][..f] == fns[..f];
        calls := calls + [SuccessCall(fns[f], arg)];
        f := f + 1;
      }
      assert fns[..f] == fns;
    }

    /** `modules.failFns.forEach(fn => fn())` */
    method CallFailFns(fns: seq<Callback>)
      modifies this`calls
      ensures calls == old(calls) + FailureCalls(fns)
    {
      var f := 0;
      while f < |fns|
        invariant 0 <= f <= |fns|
        invariant calls == old(calls) + FailureCalls(fns[..f])
      {
        assert fns[..f + 1][..f] == fns[..f];
        calls := calls + [FailureCall(fns[f])];
        f := f + 1;
      }
      assert fns[..f] == fns;
    }

    /** `require(deps, callback, errback)`: a refused call throws before
        anything changes; an accepted one injects a script per dependency and
        listens on the group. */
    method Require(deps: JsValue, callback: JsValue, errback: JsValue) returns (r: Result<(), string>)
      requires Valid()
      modifies this`state, this`events, this`keys, this`requested
      ensures Valid()
      ensures var c := CheckRequireArgs(deps, callback, errback);
              match c
              case Err(e) =>
                r == Err(e) && state == old(state) && events == old(events) && keys == old(keys) &&
                requested == old(requested)
              case Ok(a) =>
                var key := Join(a.deps, KeySeparator);
                r.Ok? && requested == old(requested) + ScriptKeys(a.deps) &&
                state == WithPending(old(state), a.deps) &&
                events == old(events)[key := AddListener(if key in old(events) then Some(old(events)[key]) else None, a.callback, a.errback)] &&
                keys == old(keys) + (if key in old(events) then [] else [key])
    {
      var c := CheckRequireArgs(deps, callback, errback);
      if c.Err? {
        return Err(c.error);
      }
      var a := c.value;
      requested := requested + ScriptKeys(a.deps);
      Listen(a.deps, a.callback, a.errback);
      r := Ok(());
    }

    /** `define(name, deps, callback)`, with `src` the `src` attribute of the
        script that is running (`""` when it has none). A module with
        dependencies only injects their scripts and never sets its exports; a
        module without runs its factory at once. */
    method Define(name: JsValue, deps: JsValue, callback: JsValue, src: string) returns (r: Result<(), string>)
      requires Valid()
      modifies this`globalModules, this`mid, this`calls, this`requested
      ensures Valid()
      ensures var n := NormalizeDefine(name, deps, callback);
              match n
              case Err(e) =>
                r == Err(e) && globalModules == old(globalModules) && mid == old(mid) &&
                calls == old(calls) && requested == old(requested)
              case Ok(a) =>
                var key := RecordKey(a, src);
                r.Ok? && mid == old(mid) + 1 &&
                (forall k :: k in old(globalModules) ==> old(globalModules)[k].id < mid) &&
                (a.deps.Some? ==>
                   globalModules == old(globalModules)[key := ModuleRecord(src, key, a.callback, Undef, mid)] &&
                   requested == old(requested) + ScriptKeys(a.deps.value) && calls == old(calls)) &&
                (a.deps.None? ==>
                   globalModules == old(globalModules)[key := ModuleRecord(src, key, a.callback, ResultOf(a.callback, []), mid)] &&
                   requested == old(requested) && calls == old(calls) + [FactoryCall(a.callback)])
    {
      var n := NormalizeDefine(name, deps, callback);
      if n.Err? {
        return Err(n.error);
      }
      var a := n.value;
      var key := RecordKey(a, src);
      mid := mid + 1;
      assert forall k :: k in old(globalModules) ==> old(globalModules)[k].id < mid;
      if a.deps.Some? {
        globalModules := globalModules[key := ModuleRecord(src, key, a.callback, Undef, mid)];
        requested := requested + ScriptKeys(a.deps.value);
      } else {
        globalModules := globalModules[key := ModuleRecord(src, key, a.callback, Undef, mid)];
        calls := calls + [FactoryCall(a.callback)];
        globalModules := globalModules[key := globalModules[key].(exports := ResultOf(a.callback, []))];
      }
      r := Ok(());
    }

    /** The `onload` (`loaded`) or `onerror` handler of a script injected by
        `loadModule` for a module other than the main entry. */
    method OnScriptSettled(key: string, loaded: bool) returns (completed: bool)
      requires Valid() && key in requested
      modifies this`state, this`events, this`calls
      ensures Valid() && events.Keys == old(events).Keys
      ensures state == old(state)[key := if loaded then Resolve else Reject]
      ensures ScanResult(events, calls, completed) == Scan(keys, 0, old(events), state, globalModules, old(calls))
    {
      completed := Trigger(key, if loaded then Resolve else Reject);
    }
  }
}
