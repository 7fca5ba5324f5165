# fake-requirejs: two module loaders, modelled in Dafny

The repository holds two browser module loaders in the style of RequireJS.

**The group loader** (`_fake-require.js`).
- `require(deps, callback, errback)` checks its arguments synchronously and injects one `<script>` per dependency.
- It then registers its callbacks on the *group* `deps.join('&')` through `moduleEvent.listen`.
- `moduleEvent` keeps two tables:
  - a load state (PENDING, RESOLVE or REJECT) for every module name;
  - for every group key, its success callbacks, its failure callbacks and a `done` flag.
- Whenever a script loads or fails, `trigger` records the new state and `triggerModulesState` judges every group that is not done:
  - a RESOLVE group calls its success callbacks with the exports of its members, in key order;
  - a REJECT group calls its failure callbacks;
  - either way, a group that fires is marked done.
- `define` stores a module record in `globalModules`. It runs the factory at once when the module has no dependencies.

**The counting loader** (`require.js`).
- Every module is a `Module` object with a numeric status (`Module.STATUS`, INITED 1 … ERROR 6) and a `depCount`.
- `analyzeDep` sets the count to the number of dependencies. For each dependency it creates a new `Module`, stores it in `modules`, and appends the analysing module to `mapDepToModule[dep]`.
- A count set to 0 runs `execute`. It does this through a property setter. `execute`:
  - collects the exports of the dependencies in declared order;
  - calls the factory;
  - stores the result;
  - moves the status to EXECUTED.
- A status that becomes EXECUTED queues one deferred `depCount--` (a `setTimeout`) for each waiter listed under the module's name.

## How the model is organised

- `js_values.dfy` (`JsValues`): the argument shapes the loaders distinguish (`JsValue`), callbacks as opaque identities, exported values as symbolic terms `ResultOf(fn, args)`, and `Option`/`Result`.
- `strings.dfy` (`Strings`): `join` and `split` on one character, and the removal of everything up to the last `/` or `\`.
- `fake_require.dfy` (`FakeRequire`): the group loader.
  - The pure part is `JudgeModulesState`, `Settle` (one group in one scan), `Scan` (the whole `for…in` pass), the argument checks and `GetModuleNameFromSrc`.
  - The class `Loader` holds the closure's tables: `globalModules`, `mid`, `moduleEvent.events` with its enumeration order `keys`, `moduleEvent.state`, a log of every callback call, and the log of every requested script.
  - Its methods update those tables in place and are proved equal to the pure functions.
- `module_paths.dfy` (`ModulePaths`): the regular expression `/\w*.js/`, as the leftmost match with a greedy `\w*`, over strings of Unicode characters. Note that the dot is unescaped, so it matches any character except a line terminator. On top of it sit `moduleNameToModulePath` and `modulePathToModuleName`.
- `require.dfy` (`Require`): the counting loader.
  - The class `Resolver` holds the closure's tables. Module objects are the entries of an object table `objects`, and an object's identity is its position in that table (its `mid` minus one).
  - `modules`, `mapDepToModule` and the timer queue hold such positions, so two tables that share an object share it in the model as well.
  - Ghost fields record, for each object, every status it has been given and how often it has executed. They also record every completed `analyzeDep` registration.
  - The invariant `Valid` ties these together:
    - every status history starts INITED, FETCHING and ends in the current status;
    - an object has executed once exactly when its count is defined and has reached 0 or below, and never otherwise;
    - `mapDepToModule` is exactly what the registrations built;
    - every queued decrement targets an object whose count is defined.
  - The deferred decrements are the first-in first-out queue `timers`. `RunTimer` runs its oldest entry.
  - A fetch outcome is an input: `FetchFail(id)` is the `onerror` of object `id`. `Define` and `Require` are the calls a loaded script makes.

### Where the code and its documented intent differ (the model follows the code)

- The resolver creates a **new** `Module` for every reference to a dependency (`require.js:154`). It does not reuse the one registered under that name, so one name can have several objects; `modules[name]` holds the last one.
- `FETCHED` (3) is declared but never assigned. A successful fetch does not change the status; only `define`, run by the loaded script, moves the module on.
- A failed fetch (`fetchFail`) sets ERROR and nothing else. No waiter is told, and `errorFn` is stored but never called.
- No cycle detection or cycle breaking exists in either loader. A name is always a real module.
- The third branch of the counting loader's `define` tests `isString(name) && Array.isArray(name)`, which no value meets. The branch is also empty, so `define(name, dep, cb)` is handled by the no-defaulting path.
- In the group loader, a group that has fired is **re-armed** by a later `listen` on the same key. Its earlier callbacks then fire again, before the new one (`RelistenRefiresEarlierCallbacks`).
- In the group loader, `define` with dependencies never runs its factory and never sets `exports` (the `listen` call is commented out).
- `require([])` listens on the key `""`. That key splits into `[""]`, so the group judges RESOLVE at the first scan. Building its arguments then reads `globalModules[""]`, which is missing, and throws.
- The group loader listens under the raw dependency names but triggers under the names `getModuleNameFromSrc` derives. A dependency written as a path (`'./a.js'`) is therefore never resolved.

## Model

| member | source | states |
|---|---|---|
| `Strings.Split` | _fake-require.js:211 | `key.split('&')` has at least one piece and no piece contains the separator |
| `Strings.SplitJoin` | _fake-require.js:135 | splitting the group key gives back the dependency list that was joined, when the list is non-empty and no name contains `&` |
| `Strings.JoinSplit` | _fake-require.js:177 | joining the pieces of any key gives the key back |
| `Strings.FirstPiece` | _fake-require.js:258 | `s.split('.')[0]` is a prefix of `s` without a dot, ending at the first dot or at the end |
| `Strings.AfterLastSeparator` | _fake-require.js:257-258 | removing the directory part leaves a suffix with no `/` or `\`, which is the whole string or starts right after a separator |
| `Strings.Join` | _fake-require.js:135 | `deps.join('&')`: the pieces with one separator between neighbours. `SplitJoin` and `JoinSplit` prove it against `Split` |
| `FakeRequire.JudgeNames` | _fake-require.js:211-219 | the scan over the members, stopping at the first REJECT or PENDING. `JudgeResolveExactly`, `JudgeFirstBlocker` and `JudgeComesFromFirstBlocker` characterise it |
| `FakeRequire.JudgeModulesState` | _fake-require.js:210-220 | `judgeModulesState(key, state)` is `JudgeNames` over `key.split('&')` |
| `FakeRequire.JudgeResolveExactly` | _fake-require.js:210-220 | `judgeModulesState` is RESOLVE exactly when no member of the key is tracked as REJECT or PENDING |
| `FakeRequire.JudgeFirstBlocker` | _fake-require.js:211-218 | the verdict is the state of the first member, in key order, that is REJECT or PENDING |
| `FakeRequire.JudgeComesFromFirstBlocker` | _fake-require.js:211-218 | a verdict other than RESOLVE is the state of a member before which no member blocks |
| `FakeRequire.PendingHidesLaterReject` | _fake-require.js:211-218 | a PENDING member earlier in the key makes the verdict PENDING even when a later member is REJECT |
| `FakeRequire.GatherExports` | _fake-require.js:176-179 | the arguments exist exactly when every member has a `globalModules` entry, and are then the members' exports in key order |
| `FakeRequire.SuccessCalls` | _fake-require.js:180-182 | every success callback is called, in registration order, with the same arguments |
| `FakeRequire.FailureCalls` | _fake-require.js:187-189 | every failure callback is called, in registration order, with no argument |
| `FakeRequire.Settle` | _fake-require.js:168-194 | one turn of the scan loop on one group, or `None` when building the arguments throws. `SettleSkipsDone`, `SettleFires` and `SettleIsOneKind` characterise it |
| `FakeRequire.Scan` | _fake-require.js:167-195 | the whole `for…in` pass from a given key on, stopping at a throw. `ScanFrame`, `ScanCompletesExactly`, `ScanSettlesEach` and `ScanCallsInOrder` characterise it |
| `FakeRequire.SettleSkipsDone` | _fake-require.js:171 | a group that is done is left unchanged and calls nothing |
| `FakeRequire.SettleFires` | _fake-require.js:168-194 | a group fires, and ends done, exactly when its verdict is not PENDING. On RESOLVE, each success callback gets every member's exports in key order. On REJECT, the failure callbacks are called. A throw happens only on RESOLVE with a member missing from `globalModules` |
| `FakeRequire.SettleIsOneKind` | _fake-require.js:173-194 | one scan of a group never calls both success and failure callbacks |
| `FakeRequire.ScanFrame` | _fake-require.js:167-195 | a scan keeps the set of groups and leaves every done group and every group it does not reach unchanged |
| `FakeRequire.ScanCompletesExactly` | _fake-require.js:167-195 | a scan ends without a throw exactly when no group it reaches throws |
| `FakeRequire.ScanSettlesEach` | _fake-require.js:167-195 | a scan that does not throw leaves each group as settling that group alone would |
| `FakeRequire.ScanCallsInOrder` | _fake-require.js:167-195 | a scan that does not throw makes the calls of the groups one group after another, in enumeration order |
| `FakeRequire.WithPending` | _fake-require.js:129-133 | every dependency not yet tracked becomes PENDING; every tracked name keeps its state; no other name is added |
| `FakeRequire.AddListener` | _fake-require.js:135-149 | `callback` is appended to `successFns`, `errback` to `failFns` only when given, earlier callbacks are kept, and `done` becomes false |
| `FakeRequire.RelistenRefiresEarlierCallbacks` | _fake-require.js:142-149 | listening again on a group that has fired re-arms it, so its earlier success callbacks fire again before the new one |
| `FakeRequire.CheckRequireArgs` | _fake-require.js:28-38 | `require` is refused exactly when deps is not an array, callback is not a function, or errback is truthy and not a function; each refusal carries its own message, in that order of precedence |
| `FakeRequire.NormalizeDefine` | _fake-require.js:48-64 | `define` accepts exactly `define(cb)` with falsy other arguments, `define(name, cb)` and `define(deps, cb)`, and yields the callback, the name and the dependencies of each shape |
| `FakeRequire.GetModuleNameFromSrc` | _fake-require.js:252-259 | `undefined` for an empty argument, otherwise the first dot-separated piece after the last separator. `ModuleNameFromSrcShape`, `PlainModuleName` and `ModuleNameFromSrcIdempotent` characterise it |
| `FakeRequire.ModuleNameFromSrcShape` | _fake-require.js:247-259 | the name taken from a path is the part of its last segment before the first dot, or the whole segment when there is no dot (`./main.js` gives `main`) |
| `FakeRequire.PlainModuleName` | _fake-require.js:252-259 | a non-empty name with no dot and no separator is its own module name |
| `FakeRequire.ModuleNameFromSrcIdempotent` | _fake-require.js:252-259 | taking the module name of a non-empty module name changes nothing |
| `FakeRequire.ScriptKey` | _fake-require.js:230 | the key under which `loadModule` reports a dependency. It is the derived module name, or `"undefined"` |
| `FakeRequire.RecordKey` | _fake-require.js:67-69 | the key `define` stores its record under. It is the given name when truthy, otherwise the name derived from `src` |
| `FakeRequire.ScriptKeys` | _fake-require.js:230-240 | the key under which `loadModule` reports each dependency is the module name derived from it |
| `FakeRequire.Loader.constructor` | _fake-require.js:10-12 | the tables start empty and `mid` at 0 |
| `FakeRequire.Loader.Listen` | _fake-require.js:128-150 | the state table becomes `WithPending` of the dependencies and the group under `deps.join('&')` becomes `AddListener` of its previous value; a new key is enumerated last |
| `FakeRequire.Loader.Trigger` | _fake-require.js:157-160 | the named module's state is overwritten, no other state changes, and the groups are then scanned |
| `FakeRequire.Loader.TriggerModulesState` | _fake-require.js:166-196 | the loop over the groups leaves the groups, the calls and the throw flag the pure scan defines |
| `FakeRequire.Loader.SettleGroup` | _fake-require.js:167-195 | one loop turn does what `Settle` defines for that group, or changes nothing when building the arguments throws |
| `FakeRequire.Loader.CollectExports` | _fake-require.js:176-179 | the argument loop computes `GatherExports` of the key's members |
| `FakeRequire.Loader.CallSuccessFns` | _fake-require.js:180-182 | the loop makes exactly the success calls, in order |
| `FakeRequire.Loader.CallFailFns` | _fake-require.js:187-189 | the loop makes exactly the failure calls, in order |
| `FakeRequire.Loader.Require` | _fake-require.js:27-45 | a refused call changes nothing; an accepted one requests one script per dependency and listens on the group |
| `FakeRequire.Loader.Define` | _fake-require.js:47-89 | a refused call changes nothing. An accepted one stores a record under the given name, or under the name derived from the script's `src`, with the next `mid`, which exceeds the id of every record stored before. Without dependencies the factory runs once and its result becomes the exports; with dependencies their scripts are requested and the exports stay undefined |
| `FakeRequire.Loader.OnScriptSettled` | _fake-require.js:232-242 | a script load sets the module RESOLVE and a load failure sets it REJECT, followed by a scan |
| `ModulePaths.WordRunIsMaximal` | require.js:242 | the `\w*` run from a position holds only word characters and stops before the first other character |
| `ModulePaths.LongestAtIsLongest` | require.js:242 | backtracking from the full run finds the widest `\w*` after which `.js` follows, or proves there is none |
| `ModulePaths.FirstMatchIsLeftmostLongest` | require.js:243 | `exec` finds a match at the leftmost possible start, with the greedy width there, or no match when none exists |
| `ModulePaths.MatchesExactly` | require.js:243-244 | the pattern occurs exactly when some `js` follows a character that is not a line terminator |
| `ModulePaths.ModuleNameToModulePath` | require.js:256-264 | the name when the pattern occurs in it, otherwise `./<name>.js`. `ModulePathMatches` characterises it |
| `ModulePaths.ModulePathMatches` | require.js:256-264 | a name the pattern matches is returned unchanged and any other becomes `./<name>.js`; every result matches, so the helper is idempotent |
| `ModulePaths.ModulePathToModuleName` | require.js:241-249 | the path when the pattern does not occur, otherwise the first dot-separated piece of the leftmost match. `ModuleNameOfPath` characterises it |
| `ModulePaths.ModuleNameOfPath` | require.js:241-249 | a path without a match is returned unchanged; otherwise the name is the leftmost match up to its first dot, and contains no dot |
| `ModulePaths.NameOfMatch` | require.js:247 | `output[0].split('.')[0]` is the word run when a dot follows it, and the whole match otherwise |
| `Require.Unloaded` | require.js:88-108 | the fields of `new Module(name)` once `init` and `fetch` have run. The source path is `moduleNameToModulePath(name)`, the status is FETCHING, and there are no dependencies, no callback and no count |
| `Require.Fetching` | require.js:153-154 | the objects the dependency loop creates, one `Unloaded` object per dependency, with consecutive `mid`s |
| `Require.Register` | require.js:157-160 | `mapDepToModule` after the dependency loop for one waiter. `RegisterLookup` and `WaitersMatchDeclarations` characterise it |
| `Require.StoreAll` | require.js:155 | `modules` after the dependency loop. `StoreAllEntries` characterises it |
| `Require.RegisterLookup` | require.js:157-160 | registering a waiter appends it to each name's list once per occurrence of that name among the dependencies, and changes nothing else |
| `Require.WaitersMatchDeclarations` | require.js:153-161 | a module waits under a name exactly as often as its registered dependency lists name it |
| `Require.WaitersAreRegistered` | require.js:153-161 | every waiter in `mapDepToModule` comes from a registration |
| `Require.StoreAllEntries` | require.js:153-155 | after the loop, `modules` keeps the other names and holds, under each dependency, the object created for its last occurrence |
| `Require.DepExports` | require.js:170-172 | the arguments exist exactly when every dependency is in `modules`; they are then the exports in declared order, and otherwise the error names the first missing dependency |
| `Require.ExecutionOf` | require.js:167-177 | `execute` goes EXECUTING. After a throw (missing dependency or no function) it stays EXECUTING with unchanged exports and nothing queued. Otherwise it stores the callback's result, ends EXECUTED and queues exactly the waiters |
| `Require.NormalizeDefine` | require.js:49-60 | `define(cb)` and `define(deps, cb)` are rewritten with the current module name; every other shape is passed through unchanged |
| `Require.NormalizeRequire` | require.js:28-31 | a function in first position becomes the callback, with no dependencies |
| `Require.Resolver.ExecutesAtMostOnce` | require.js:141-147 | under the invariant, no module object has executed more than once |
| `Require.Resolver.constructor` | require.js:213 | the entry module is object 1, named after `data-main`, FETCHING, with every table empty |
| `Require.Resolver.NewModule` | require.js:88-108 | a new object takes the next `mid` and has gone through INITED and FETCHING with no hook |
| `Require.Resolver.CallHook` | require.js:185-209 | the status is stored. Only when a defined status becomes EXECUTED is one decrement queued per waiter under the module's name; nothing else changes |
| `Require.Resolver.FetchFail` | require.js:125-128 | the object becomes ERROR, nothing is queued, and the invariant holds |
| `Require.Resolver.Execute` | require.js:167-177 | running an object whose count reached 0 does exactly what `ExecutionOf` describes and restores the invariant |
| `Require.Resolver.Run` | require.js:167-177 | the steps of `execute` match `ExecutionOf`. EXECUTING, then the arguments, the call and EXECUTED. The arguments are read before the hook, which cannot be observed, because the hook changes no exports |
| `Require.Resolver.Apply` | require.js:173-174 | the callback result becomes the exports and the status becomes EXECUTED, with the waiters' decrements queued |
| `Require.Resolver.SetDepCount` | require.js:141-147 | storing a count other than 0 changes only the count; storing 0 also executes the object |
| `Require.Resolver.AnalyzeDep` | require.js:135-162 | a second `analyzeDep` throws and changes nothing. Otherwise the count becomes `dep.length`, and one of two things happens. A module without dependencies executes at once and creates or registers nothing. A module with dependencies creates one FETCHING object per dependency, stores each under its name and is registered as waiter on each |
| `Require.Resolver.DefineDepCount` | require.js:136-149 | defining the accessor and assigning `dep.length` executes the object exactly when that length is 0 |
| `Require.Resolver.CreateDependencies` | require.js:153-161 | the dependency loop creates the objects, stores them and registers the waiter, and the invariant holds again |
| `Require.Resolver.CreateEach` | require.js:153-161 | the loop appends one object per dependency, in order, and builds `StoreAll` and `Register` of the dependencies |
| `Require.Resolver.RunTimer` | require.js:199-201 | with an empty queue nothing happens; otherwise the oldest decrement runs through the setter and executes the object when the count reaches 0 |
| `Require.Resolver.Define` | require.js:47-68 | `define` for a name `modules` does not hold throws and changes nothing. Otherwise the object stored under the name gets the new dependencies, callback and error callback, and the whole new state follows the three cases of `analyzeDep`. A second analysis throws and changes nothing else. Without dependencies the object executes at once. With dependencies the objects are appended as `Fetching`, `modules` becomes `StoreAll`, and `mapDepToModule` becomes `Register` |
| `Require.Resolver.Require` | require.js:26-37 | the entry object is first stored in `modules` under its name. Then the whole new state follows the same three cases of `analyzeDep`, starting from that `modules` |
| `Require.Resolver.Configure` | require.js:62-67 | the three assignments and `analyzeDep` on a found object: the whole new state in each of the three cases |
| `Require.Resolver.Provide` | require.js:63-66 | only the dependencies, callback and error callback of the object change, and the invariant holds |

## Left out

- Script injection into the DOM and the `onload`/`onerror` wiring (`loadModule`, `Module.prototype.fetch`) are not modelled. Instead, a fetch outcome is an input: `Loader.OnScriptSettled`, `Resolver.FetchFail`, and a `define` or `require` call made by a loaded script.
- Bootstrapping from the entry script is not modelled, because it reads browser globals. This covers `data-main`, `document.currentScript` and `loadMainEntryJS`. The derived values (`dataMain`, `src`, `currentSrc`) are parameters.
- Logging to the console and the debug assignments to `global`/`window` are not modelled, because they have no effect on the tables.
- `example3/b.js` is a usage example and is not part of this model. Its `'require'` dependency is treated like any other name, because neither loader implements a sentinel or cycle breaking.
- `setTimeout` has no real timer semantics here. It is a first-in first-out queue, and `RunTimer` runs one entry at a time; when the entries run, relative to other input events, is up to the caller.
- Callbacks are opaque. A callback that itself calls `require` or `define` (re-entrancy) is not modelled, and neither is a callback that throws.
- `for…in` over `moduleEvent.events` is modelled in insertion order. JavaScript enumerates integer-like keys first; that ordering is not modelled.
- Names inherited from `Object.prototype` are not modelled; every table is a plain map. Examples are `constructor` and `toString`, which would make `this.state[dep]` or `modules[dep]` truthy.
- Dependency arrays hold strings only. Arrays with other elements, and the `JSON` copy `require` makes, are not modelled.
- The regular expressions of `getModuleNameFromSrc` are modelled by their effect. `AfterLastSeparator` removes everything up to the last `/` or `\`, and the first piece before a dot is kept; the global `replace` is not modelled step by step.
- ModulePaths.ModulePathToModuleName and ModulePaths.ModuleNameToModulePath treat strings as sequences of Unicode characters, not UTF-16 code units. In JavaScript, the `.` of `/\w*.js/` matches one code unit: for a character outside the Basic Multilingual Plane followed by `js` (`"\u{1F600}js"`), `exec` matches the low surrogate alone, while the model treats the character as one. Paths made of such characters are therefore not modelled faithfully.
- Require.Resolver.Define: requires that the name after the defaulting is a string and that the dependencies are an array or falsy. With other shapes the code reads `.length` or calls `forEach` on a value that is not an array. It may also index `modules` with a non-string key.
- Require.Resolver.Require: requires that the dependencies are an array or falsy, for the same reason.
- Require.Resolver.Execute: its callback result is the symbolic `ResultOf(cb, args)`, and `this` inside the callback is not modelled.
