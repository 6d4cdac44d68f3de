# Lazy module imports, modelled in Dafny

This project models the core of a small Python library that keeps expensive modules
from being imported until they are used. Everything rests on Python's process-wide
module table, `sys.modules`, which maps dotted names to module objects. The core has
three parts:

- **The attribute proxy `LazyObject`.** It stands for one attribute of a module that
  has not been imported yet. It stores a module name, an attribute name and a cache
  slot that starts as `None`. On the first call or attribute read, `_load` looks the
  module up in the table, runs the module's loader and caches the named attribute.
  Later uses go straight to the cache. `src/lazy.py` and `src/lazyloadtools.py` hold
  two copies of this class that differ only in one comment line. Module `LazyObjects`
  models it once.
- **Proxy-module registration.** `lazy_load` (`src/lazy.py`) and
  `setup_lazyload_module` (`src/lazyloadtools.py`) do nothing to a name the table
  already has. For an absent name they find the module's spec, build a module from
  it, make importlib's `LazyLoader` its loader and register it. The module also gets
  a module-level `__getattr__` that hands out fresh, unloaded proxies. `setup_lazy_load`
  does this for each name of a list.
- **Depth-ordered setup (`setup_lazy_modules`, `src/janzu_lazy_modules.py`).** It
  collects every listed name together with all of its dotted prefixes. It sorts them
  by their number of dots. Then it registers each name the table lacks, following a
  small decision tree: parent import, `find_spec`, `LazyLoader`, `create_module`, and a
  bare module when an `ImportError` or `AttributeError` is caught.

## How the model is built

- `Runtime` holds the Python-side types:
  - values, with `None` singled out;
  - the exception kinds;
  - module objects, with their `__loader__` and the proxy hook;
  - the module table `ModuleTable`, a class whose `modules` map the methods reassign.
- The library calls the core makes but does not define are fields of the datatype
  `Host`: `find_spec`, `module_from_spec`, `LazyLoader(...)`, `create_module`,
  `import_module`, `exec_module`, `getattr` and calling an object. Each field is an
  arbitrary function. Each call returns either a value or an exception (`Outcome`),
  so every error path of the source is modelled. The lemmas hold for every behaviour
  of those calls within these limits:
  - `find_spec` sees the whole table and may import modules into it, for example the
    parent package of a dotted name (`Lookup`). A child's lookup can therefore depend
    on what was registered for its parent.
  - `import_module` and `find_spec` only add entries where the table has none
    (`Merge`); they never replace or remove one.
  - `exec_module`, `getattr`, calls, `module_from_spec`, `LazyLoader(...)` and
    `create_module` neither read nor change the table.
- The state-changing operations are methods. Each method's contract equates its
  result and the new table, or the proxy's new state, with a specification function
  of the old state. The lemmas are about those functions: `LoadStep`/`UseStep`/`RunUses`,
  `LazyLoadEffect`, `SetupLazyLoadEffect`, `SetupLazyloadModuleEffect`, `SetupOne` and
  `SetupAll`.
- A proxy's ghost counter `execs` counts the times that proxy has run its module's
  loader. The memoisation lemmas are stated with it.
- `None` is the proxy's "not loaded" sentinel, and the model keeps it. If the fetched
  attribute is itself `None`, the cache stays empty and every use runs the loader
  again (`NoneAttributeReloadsEveryUse`). The at-most-once lemma assumes a fetched
  value other than `None`.
- `lazy_load` on a name for which `find_spec` returns `None` passes `None` to
  `module_from_spec`, which raises `AttributeError`. The table then holds only what
  `find_spec` imported on the way; when it imported nothing, the table is unchanged
  (`LazyLoadWithoutImports`).
- The code keeps no per-name load state. It has no "loading" or "failed" state, does
  not cache failures, does not detect cycles, takes no locks, and raises no error when
  a name is registered twice. A failed `_load` leaves the cache empty, so the next use
  tries again. The model follows the code in all of this.

## Model

| member | source | states |
|---|---|---|
| Runtime.Bare | src/janzu_lazy_modules.py:71 | `ModuleType(name)` is a module of that name with no loader and no lazy hook |
| Runtime.Merge | src/janzu_lazy_modules.py:62-63 | an import adds the modules it imported where the table had none: every old entry is kept unchanged, the keys are the old ones plus the imported ones, and every new entry is the imported module |
| LazyObjects.LazyObject.constructor | src/lazy.py:12-20 | a new proxy records exactly the module and attribute names, its cache is empty (None) and no loader has run |
| LazyObjects.LazyObject.Load | src/lazy.py:22-27 | `_load` moves the proxy's cache and loader count exactly as `LoadStep` says, for the current table |
| LazyObjects.LazyObject.Call | src/lazy.py:29-41 | `__call__` loads first, then calls the cached object (TypeError when the cache is still None) |
| LazyObjects.LazyObject.GetAttr | src/lazy.py:43-54 | `__getattr__` loads first, then reads the attribute from the cached object |
| LazyObjects.LoadStep | src/lazy.py:22-27 | `_load` runs the loader at most once per call; with a filled cache it changes nothing; a failed load leaves the cache empty, so the next use tries again; a successful load from an empty cache found the module in the table, ran its loader once and cached that module's named attribute |
| LazyObjects.UseStep | src/lazy.py:40-54 | calling the proxy and reading an attribute from it both run `_load` before forwarding, with the same effect on the proxy |
| LazyObjects.RunUses | src/lazy.py:22-54 | over a sequence of uses of one proxy the loader runs at most once per use and the count never goes down |
| LazyObjects.LoadCachedIgnoresTable | src/lazy.py:24 | with a filled cache `_load` neither looks at the table nor runs a loader: its outcome is the same for every table and every host |
| LazyObjects.LoadMissingModule | src/lazy.py:25 | with an empty cache and the module name missing from the table, `_load` raises KeyError and nothing changes |
| LazyObjects.LoadCachesAttribute | src/lazy.py:24-27 | from an empty cache a successful `_load` runs the loader once and caches exactly the named attribute of the module registered under the proxy's module name |
| LazyObjects.CachedUsesRunNoLoader | src/lazy.py:24 | once the cache holds an object, any sequence of calls and attribute reads leaves the proxy unchanged and runs no loader |
| LazyObjects.UsesLoadAtMostOnce | src/lazy.py:22-54 | when the fetched attribute is not None, any number of uses of one proxy runs the loader at most once, and exactly once when there is a use and the cache started empty |
| LazyObjects.NoneAttributeReloadsEveryUse | src/lazy.py:24-27 | when the fetched attribute is None, the cache stays empty and each of n uses runs the loader again (n runs in all) |
| LazyObjects.UseForwardsToCache | src/lazy.py:40-54 | with a filled cache, a call is the cached object's call and an attribute read is the cached object's attribute, whatever the table and the host hold now, and the proxy is unchanged |
| LazyObjects.FirstUseForwardsToFetched | src/lazy.py:22-54 | the first use of a proxy whose fetch succeeds runs the loader once, caches the fetched value and forwards the call or attribute read to it |
| LazyObjects.LoadErrorPropagates | src/lazy.py:29-54 | when `_load` raises, calling the proxy or reading an attribute from it raises the same exception |
| LazyObjects.NewLazyModule | src/lazy.py:69-88 | building a proxy module succeeds exactly when find_spec gave a spec and module_from_spec and LazyLoader both succeed; the module is then the one module_from_spec built, with `LazyLoader(spec.loader)` as its loader and a hook for the given name; a missing spec raises AttributeError and an exception from find_spec propagates |
| LazyObjects.ModuleGetAttr | src/lazy.py:76-86 | the module hook returns a fresh proxy for (the captured module name, the requested attribute) with an empty cache and nothing loaded |
| Lazy.LazyLoadEffect | src/lazy.py:56-89 | a present name returns its entry and leaves the table unchanged; a success leaves the returned module registered under the name; a failure leaves only what find_spec imported; no existing entry changes, and every other new key is one find_spec imported |
| Lazy.LazyLoadInsertsProxyModule | src/lazy.py:69-73 | an absent name gets the module built from its spec, with `LazyLoader(spec.loader)` and a hook for the name, written over what find_spec's imports left in the table |
| Lazy.LazyLoadWithoutImports | src/lazy.py:66-73 | when find_spec imports nothing, `lazy_load` adds at most the name itself, and a failure leaves the table unchanged |
| Lazy.LazyLoadIdempotent | src/lazy.py:66-67 | after a successful `lazy_load`, a second one returns the same entry and leaves the table as it was |
| Lazy.LazyLoad | src/lazy.py:56-89 | `lazy_load` returns and writes exactly what `LazyLoadEffect` gives for the old table |
| Lazy.SetupLazyLoadEffect | src/lazy.py:118-120 | the loop of `setup_lazy_load`, with the first exception ending it, never removes or replaces an entry the table had |
| Lazy.SetupLazyLoadStepKeys | src/lazy.py:118-120 | one more name adds only that name and the modules find_spec imported while registering it |
| Lazy.ImportedDuringExtends | src/lazy.py:118-120 | a module find_spec imported during the first names of the list was imported during the whole run |
| Lazy.SetupLazyLoadNewKeys | src/lazy.py:118-120 | every key `setup_lazy_load` adds is a listed name or a module find_spec imported while registering one of them |
| Lazy.SetupLazyLoadRegistersAll | src/lazy.py:118-120 | after `setup_lazy_load` returns normally, every listed name is in the table |
| Lazy.SetupLazyLoadAbortSticky | src/lazy.py:118-120 | the first exception ends the loop: the names after it change nothing |
| Lazy.LazyModulesRegistered | src/lazy.py:91-96 | with the project's own `LAZY_MODULES`, a normal return of `setup_lazy_load` leaves "science", "science.pack", "science.pack.slow" and "science.pack.junk" registered |
| Lazy.SetupLazyLoad | src/lazy.py:114-120 | the loop of `setup_lazy_load` gives exactly the outcome and table of `SetupLazyLoadEffect` |
| LazyLoadTools.GetLazyObject | src/lazyloadtools.py:58-69 | `_get_lazy_object` returns a fresh proxy bound to exactly (fullname, name), with an empty cache and nothing loaded |
| LazyLoadTools.ProxyModuleGetAttr | src/lazyloadtools.py:104 | the module hook installed by `setup_lazyload_module` hands out `_get_lazy_object` proxies for the captured name |
| LazyLoadTools.SetupLazyloadModuleEffect | src/lazyloadtools.py:72-105 | a present name leaves the table unchanged; a normal return leaves the name registered; a failure leaves only what find_spec imported; when find_spec did not import the name itself, the name is present exactly when the call returned normally; no existing entry changes and every other new key is one find_spec imported |
| LazyLoadTools.SetupLazyloadModuleIdempotent | src/lazyloadtools.py:90-105 | after a `setup_lazyload_module` that returned normally, a second one of the same name returns normally and leaves the table unchanged |
| LazyLoadTools.SetupLazyloadModuleAgreesWithLazyLoad | src/lazyloadtools.py:97-105 | `setup_lazyload_module` leaves the same table as `lazy_load` and fails in the same cases |
| LazyLoadTools.SetupLazyloadModule | src/lazyloadtools.py:72-105 | the method, with its two writes of the same module, gives exactly what `SetupLazyloadModuleEffect` gives |
| DottedNames.Depth | src/janzu_lazy_modules.py:56 | `count('.')` is at most the name's length |
| DottedNames.DepthAppend | src/janzu_lazy_modules.py:56 | the dot count of a concatenation is the sum of the parts' dot counts |
| DottedNames.DepthZero | src/janzu_lazy_modules.py:56 | a name without a dot sorts first: its `count('.')` is zero |
| DottedNames.LastDot | src/janzu_lazy_modules.py:61 | the position `rsplit` splits at holds a dot, and no dot follows it |
| DottedNames.Parent | src/janzu_lazy_modules.py:60-61 | `rsplit('.', 1)[0]` is the text before the name's last dot: a proper prefix followed by a dot, with no dot after that one |
| DottedNames.Split | src/janzu_lazy_modules.py:50 | `split('.')` yields at least one segment, and no segment contains a dot |
| DottedNames.Join | src/janzu_lazy_modules.py:53 | `'.'.join(parts)` contains a dot when there are two segments or more |
| DottedNames.DottedPrefixes | src/janzu_lazy_modules.py:52-53 | a name is one of its own dotted prefixes, and every dotted prefix is a prefix of the name |
| DottedNames.PrefixClosure | src/janzu_lazy_modules.py:48-53 | every listed name is in the collected set |
| DottedNames.ParentDepth | src/janzu_lazy_modules.py:56-61 | the parent has exactly one dot fewer than the name |
| DottedNames.JoinSplit | src/janzu_lazy_modules.py:50-53 | joining the parts of `split('.')` with dots gives back the name |
| DottedNames.ParentOfJoined | src/janzu_lazy_modules.py:53-61 | joining a dot-free segment onto a name gives a dotted name whose `rsplit('.', 1)` gives back the name and the segment |
| DottedNames.SplitJoin | src/janzu_lazy_modules.py:50-53 | splitting a dot-join of dot-free segments gives back the segments |
| DottedNames.SplitLength | src/janzu_lazy_modules.py:50-52 | a name splits into one more part than it has dots |
| DottedNames.DottedPrefixesStep | src/janzu_lazy_modules.py:52-53 | the dotted prefixes of a dotted name are those of its parent plus the name itself |
| DottedNames.DotFreePrefixes | src/janzu_lazy_modules.py:52-53 | a name without a dot is its own only collected prefix |
| DottedNames.SplitParent | src/janzu_lazy_modules.py:50-53 | a dotted name has one segment more than its parent, and joining all its segments gives the name |
| DottedNames.JoinUpToParent | src/janzu_lazy_modules.py:52-53 | `'.'.join(parts[:i+1])` is the same for a dotted name and for its parent, for every i the parent has |
| DottedNames.JoinedPrefixesGrow | src/janzu_lazy_modules.py:52-53 | one more segment, whose shorter joins agree with those of the shorter list, adds exactly one join |
| DottedNames.JoinedPrefixesStep | src/janzu_lazy_modules.py:52-53 | the joins over a dotted name's segments are those over its parent's segments plus the name |
| DottedNames.JoinedPrefixesAreDotted | src/janzu_lazy_modules.py:52-53 | the joins of the first i+1 parts, over all i, are exactly the name and the texts before each of its dots |
| DottedNames.ParentOfPrefix | src/janzu_lazy_modules.py:52-53 | the parent of a collected prefix is again a collected prefix of the same name |
| DottedNames.PrefixClosureMembers | src/janzu_lazy_modules.py:48-53 | the collected set holds every dotted prefix of every listed name, and only those |
| DottedNames.PrefixClosureIsClosed | src/janzu_lazy_modules.py:60-68 | the parent of every dotted member of the collected set is in the set |
| JanzuLazyModules.CollectModules | src/janzu_lazy_modules.py:48-53 | the nested loops build exactly the prefix closure of the list |
| JanzuLazyModules.DepthSorted | src/janzu_lazy_modules.py:56 | the processing order lists every collected name exactly once, with the dot count never decreasing |
| JanzuLazyModules.ShallowestExists | src/janzu_lazy_modules.py:56 | every non-empty set of names has a member of least depth |
| JanzuLazyModules.SortByDepth | src/janzu_lazy_modules.py:56 | the sorted order lists every collected name exactly once, with the dot count never decreasing |
| JanzuLazyModules.ParentBeforeChild | src/janzu_lazy_modules.py:55-56 | in that order every dotted name's parent comes strictly before it |
| JanzuLazyModules.ListedOnce | src/janzu_lazy_modules.py:48-56 | each listed name is processed exactly once, however often the list repeats it |
| JanzuLazyModules.GeminiProcessedOnce | src/janzu_lazy_modules.py:23-24 | "predictors.contrib.google.gemini" (`Gemini`) is listed twice and appears exactly once in the processing order |
| JanzuLazyModules.UnlistedParentsCollected | src/janzu_lazy_modules.py:15 | "google" and "google.cloud", which the list never names, are collected as parents of "google.cloud.aiplatform" |
| JanzuLazyModules.Except | src/janzu_lazy_modules.py:84-86 | the handler touches at most the entry under the name: every other entry is kept, no other key appears, and a caught exception leaves the name registered |
| JanzuLazyModules.SetupFromSpec | src/janzu_lazy_modules.py:65-82 | from find_spec on, no entry other than the name's is replaced; the loop continues without the name registered only when find_spec found no spec; every other new key is one find_spec imported |
| JanzuLazyModules.SetupOne | src/janzu_lazy_modules.py:57-86 | one name's setup keeps every existing entry; a present name is skipped; after a normal end the name is registered unless find_spec found no spec; any other new key came from the parent's import or from find_spec |
| JanzuLazyModules.NoSpecParentPresent | src/janzu_lazy_modules.py:66-72 | with no spec, a dotted name whose parent is registered by then gets a bare module |
| JanzuLazyModules.NoSpecSkipped | src/janzu_lazy_modules.py:66-74 | with no spec and no registered parent, the name gets no entry of its own |
| JanzuLazyModules.SpecFoundRegistersCreated | src/janzu_lazy_modules.py:60-82 | with a spec, the name gets the module `create_module` returned, or a bare module if it returned None, also when the parent had to be imported first |
| JanzuLazyModules.ParentImportErrorRegistersBare | src/janzu_lazy_modules.py:60-63 | an ImportError or AttributeError from the parent's import registers a bare module; any other exception escapes |
| JanzuLazyModules.ErrorRegistersBare | src/janzu_lazy_modules.py:58-86 | an ImportError or AttributeError from find_spec, LazyLoader or create_module registers a bare module, also after a parent import; any other exception escapes |
| JanzuLazyModules.SetupAll | src/janzu_lazy_modules.py:56-86 | the whole loop never removes or replaces an entry the table had |
| JanzuLazyModules.SetupAllStep | src/janzu_lazy_modules.py:56-57 | each turn of the loop sets up the next name on the table the earlier turns left |
| JanzuLazyModules.SetupAllCovers | src/janzu_lazy_modules.py:56-86 | after a normal end, every processed name is registered unless find_spec found no spec for it when its turn came |
| JanzuLazyModules.SetupAllAbortSticky | src/janzu_lazy_modules.py:56-86 | an escaping exception ends the loop: the names after it change nothing |
| JanzuLazyModules.SetupLazyModules | src/janzu_lazy_modules.py:46-86 | processes the prefix closure in a depth-sorted order, with the outcome and table of `SetupAll`; keeps every existing entry; after a normal end every collected name is registered unless it had no spec when its turn came |

## Left out

- Output: the `print` calls and `show_modules` (src/lazy.py:99-111) only print diagnostics.
- importlib and the interpreter: `find_spec`, `module_from_spec`, `LazyLoader`,
  `create_module`, `import_module`, `exec_module`, `getattr` and calls are arbitrary
  functions of `Host`. Only `find_spec` and `import_module` may change the table, and
  only by adding entries. Module code run by `exec_module`, or by a getattr or call on
  a loaded object, can import further modules in Python; the model does not track it.
- LazyObjects.LoadStep: states the proxy's state only. What `exec_module` does to the
  table is not modelled, for the reason above.
- LazyLoadTools.SetupLazyloadModuleIdempotent: covers a first call that returned
  normally. After a failure, `find_spec` sees a table its own imports may have changed,
  so a retry can behave differently.
- Module mutation: module objects are immutable values in the model. `LazyLoader.exec_module`
  changes a module's class and `__loader__` in place. The model does not track this,
  so a second proxy for the same module calls the same loader again. In Python the
  consequence is worse: after the first proxy's `_load`, the module's `__loader__` is
  the wrapped eager loader, so every later proxy of that module re-runs the module's
  code (src/lazy.py:26). The per-proxy loader count cannot show this. The line
  `spec.loader = loader` (src/janzu_lazy_modules.py:78) is modelled by passing the new
  loader to `create_module`.
- Object identity: "the same entry" means equal module values. Python would compare
  object identity.
- Attribute interception: Python calls a proxy's `__getattr__` only for names the proxy
  does not define itself. It calls a module's `__getattr__` hook only for attributes
  the module lacks. The model makes these explicit methods (`GetAttr`, `ModuleGetAttr`,
  `ProxyModuleGetAttr`). Positional and keyword arguments are one sequence of values.
- The lists: the two `LAZY_MODULES` lists are the constants `Lazy.LazyModules` and
  `JanzuLazyModules.LazyModules`; the entry the janzu list repeats is the constant
  `JanzuLazyModules.Gemini`. The setup methods take the list as a parameter. The
  lemmas `LazyModulesRegistered`, `GeminiProcessedOnce` and `UnlistedParentsCollected`
  are about the constants themselves.
- Sorting: Python's `sorted` is modelled by a selection loop (`SortByDepth`). It leaves the order
  among names of equal depth open, as Python's set iteration order does.
- Demo modules: src/science/pack/slow.py, src/science/pack/junk.py, src/app/mylib.py
  and src/go_science.py only sleep, print and wire the application together.
- Concurrency: the code takes no locks and runs sequentially, and so does the model.
