/** The per-attribute proxy LazyObject and the proxy module that hands such proxies
    out. lazy.py and lazyloadtools.py carry two copies of LazyObject that differ only
    in a comment; this module models it once. */
module LazyObjects {
  import opened Runtime

  /** What a LazyObject remembers: its cached object (None while not loaded) and,
      as bookkeeping only, how many times it has run the module's loader. */
  datatype ProxyState = ProxyState(cache: Value, execs: nat)

  /** A use of the proxy by client code: calling it, or reading one of its attributes. */
  datatype Use = CallWith(args: seq<Value>) | ReadAttr(name: Name)

  /** LazyObject._load: with a filled cache, nothing; otherwise look the module up,
      run its loader, and cache the named attribute. */
  function LoadStep(s: ProxyState, moduleName: Name, attrName: Name,
                    modules: map<Name, Module>, host: Host): (r: (Outcome<()>, ProxyState))
    ensures r.1.execs <= s.execs + 1
    ensures s.cache != PyNone ==> r == (Returned(()), s)
    ensures r.0.Raised? ==> s.cache == PyNone && r.1.cache == PyNone
    ensures r.0.Returned? && s.cache == PyNone ==>
              moduleName in modules && r.1.execs == s.execs + 1 &&
              host.moduleAttr(modules[moduleName], attrName) == Returned(r.1.cache)
  {
    if s.cache != PyNone then (Returned(()), s)
    else if moduleName !in modules then (Raised(KeyError), s)
    else
      var mod := modules[moduleName];
      if mod.loader.None? then (Raised(AttributeError), s)
      else
        var ran := s.(execs := s.execs + 1);
        match host.execModule(mod.loader.value, mod)
        case Raised(e) => (Raised(e), ran)
        case Returned(_) =>
          match host.moduleAttr(mod, attrName)
          case Raised(e) => (Raised(e), ran)
          case Returned(v) => (Returned(()), ran.(cache := v))
  }

  /** LazyObject.__call__ and LazyObject.__getattr__: load, then forward to the cached object. */
  function UseStep(s: ProxyState, u: Use, moduleName: Name, attrName: Name,
                   modules: map<Name, Module>, host: Host): (r: (Outcome<Value>, ProxyState))
    ensures r.1 == LoadStep(s, moduleName, attrName, modules, host).1
  {
    var (loaded, s') := LoadStep(s, moduleName, attrName, modules, host);
    if loaded.Raised? then (Raised(loaded.error), s')
    else
      match u
      case CallWith(args) => (if s'.cache == PyNone then Raised(TypeError) else host.call(s'.cache, args), s')
      case ReadAttr(name) => (host.valueAttr(s'.cache, name), s')
  }

  /** The state after a sequence of uses of one proxy: each use runs the loader at most once. */
  function RunUses(s: ProxyState, us: seq<Use>, moduleName: Name, attrName: Name,
                   modules: map<Name, Module>, host: Host): (r: ProxyState)
    ensures s.execs <= r.execs <= s.execs + |us|
    decreases |us|
  {
    if us == [] then s
    else RunUses(UseStep(s, us[0], moduleName, attrName, modules, host).1, us[1..],
                 moduleName, attrName, modules, host)
  }

  /** Looking the module up, running its loader and reading the attribute all succeed. */
  predicate FetchYields(moduleName: Name, attrName: Name, modules: map<Name, Module>, host: Host, v: Value)
  {
    && moduleName in modules
    && modules[moduleName].loader.Some?
    && host.execModule(modules[moduleName].loader.value, modules[moduleName]).Returned?
    && host.moduleAttr(modules[moduleName], attrName) == Returned(v)
  }

  // ---------------------------------------------------------------------------
  // _load

  /** With a filled cache _load neither consults the table nor runs a loader: the
      outcome is the same whatever the table and the host are. */
  lemma LoadCachedIgnoresTable(s: ProxyState, moduleName: Name, attrName: Name,
                               modules: map<Name, Module>, modules': map<Name, Module>,
                               host: Host, host': Host)
    requires s.cache != PyNone
    ensures LoadStep(s, moduleName, attrName, modules, host) ==
            LoadStep(s, moduleName, attrName, modules', host')
    ensures LoadStep(s, moduleName, attrName, modules, host).1.execs == s.execs
  {
  }

  /** With an empty cache and the module missing from the table, _load raises KeyError
      and runs nothing. */
  lemma LoadMissingModule(s: ProxyState, moduleName: Name, attrName: Name,
                          modules: map<Name, Module>, host: Host)
    requires s.cache == PyNone && moduleName !in modules
    ensures LoadStep(s, moduleName, attrName, modules, host) == (Raised(KeyError), s)
  {
  }

  /** With an empty cache, a successful _load runs the loader once and caches exactly
      the named attribute of the registered module. */
  lemma LoadCachesAttribute(s: ProxyState, moduleName: Name, attrName: Name,
                            modules: map<Name, Module>, host: Host, v: Value)
    requires s.cache == PyNone && FetchYields(moduleName, attrName, modules, host, v)
    ensures LoadStep(s, moduleName, attrName, modules, host) == (Returned(()), ProxyState(v, s.execs + 1))
  {
  }

  // ---------------------------------------------------------------------------
  // memoisation over many uses

  /** Once the cache holds an object, no further use runs the loader again. */
  lemma {:induction false} CachedUsesRunNoLoader(s: ProxyState, us: seq<Use>, moduleName: Name,
                                                 attrName: Name, modules: map<Name, Module>, host: Host)
    requires s.cache != PyNone
    ensures RunUses(s, us, moduleName, attrName, modules, host) == s
    decreases |us|
  {
    if us != [] {
      CachedUsesRunNoLoader(UseStep(s, us[0], moduleName, attrName, modules, host).1, us[1..],
                            moduleName, attrName, modules, host);
    }
  }

  /** When the fetched attribute is not None, any number of uses of one proxy runs the
      module's loader at most once, and exactly once if there is at least one use. */
  lemma {:induction false} UsesLoadAtMostOnce(s: ProxyState, us: seq<Use>, moduleName: Name,
                                              attrName: Name, modules: map<Name, Module>,
                                              host: Host, v: Value)
    requires FetchYields(moduleName, attrName, modules, host, v) && v != PyNone
    ensures RunUses(s, us, moduleName, attrName, modules, host).execs <= s.execs + 1
    ensures s.cache == PyNone && us != [] ==>
              RunUses(s, us, moduleName, attrName, modules, host) == ProxyState(v, s.execs + 1)
  {
    if s.cache != PyNone {
      CachedUsesRunNoLoader(s, us, moduleName, attrName, modules, host);
    } else if us != [] {
      var s1 := UseStep(s, us[0], moduleName, attrName, modules, host).1;
      assert s1 == ProxyState(v, s.execs + 1);
      CachedUsesRunNoLoader(s1, us[1..], moduleName, attrName, modules, host);
    }
  }

  /** The None sentinel: when the fetched attribute is itself None, the cache stays
      empty and every use runs the module's loader again. */
  lemma {:induction false} NoneAttributeReloadsEveryUse(s: ProxyState, us: seq<Use>, moduleName: Name,
                                                        attrName: Name, modules: map<Name, Module>,
                                                        host: Host)
    requires s.cache == PyNone && FetchYields(moduleName, attrName, modules, host, PyNone)
    ensures RunUses(s, us, moduleName, attrName, modules, host) == ProxyState(PyNone, s.execs + |us|)
    decreases |us|
  {
    if us != [] {
      var s1 := UseStep(s, us[0], moduleName, attrName, modules, host).1;
      assert s1 == ProxyState(PyNone, s.execs + 1);
      NoneAttributeReloadsEveryUse(s1, us[1..], moduleName, attrName, modules, host);
    }
  }

  /** With a filled cache, calling the proxy calls the cached object and reading an
      attribute reads it from the cached object, whatever the table and the host hold
      now, and the proxy is left as it was. */
  lemma UseForwardsToCache(s: ProxyState, u: Use, moduleName: Name, attrName: Name,
                           modules: map<Name, Module>, host: Host)
    requires s.cache != PyNone
    ensures UseStep(s, u, moduleName, attrName, modules, host) ==
              (match u
               case CallWith(args) => host.call(s.cache, args)
               case ReadAttr(name) => host.valueAttr(s.cache, name), s)
  {
  }

  /** The first use of a proxy whose fetch succeeds runs the loader once, caches the
      fetched value and forwards the call or attribute read to it. */
  lemma FirstUseForwardsToFetched(s: ProxyState, u: Use, moduleName: Name, attrName: Name,
                                  modules: map<Name, Module>, host: Host, v: Value)
    requires s.cache == PyNone && FetchYields(moduleName, attrName, modules, host, v) && v != PyNone
    ensures UseStep(s, u, moduleName, attrName, modules, host) ==
              (match u
               case CallWith(args) => host.call(v, args)
               case ReadAttr(name) => host.valueAttr(v, name), ProxyState(v, s.execs + 1))
  {
  }

  /** When _load raises, calling the proxy or reading one of its attributes raises the
      same exception, and the proxy keeps the state _load left it in. */
  lemma LoadErrorPropagates(s: ProxyState, u: Use, moduleName: Name, attrName: Name,
                            modules: map<Name, Module>, host: Host)
    requires LoadStep(s, moduleName, attrName, modules, host).0.Raised?
    ensures UseStep(s, u, moduleName, attrName, modules, host) ==
              (Raised(LoadStep(s, moduleName, attrName, modules, host).0.error),
               LoadStep(s, moduleName, attrName, modules, host).1)
  {
  }

  // ---------------------------------------------------------------------------
  // the proxy object

  /** LazyObject(module_name, attr_name). */
  class LazyObject {
    const moduleName: Name
    const attrName: Name
    var realObject: Value
    ghost var execs: nat

    ghost function State(): ProxyState
      reads this
    {
      ProxyState(realObject, execs)
    }

    /** Records the two names; nothing is loaded and the cache is empty. */
    constructor (moduleName: Name, attrName: Name)
      ensures this.moduleName == moduleName && this.attrName == attrName
      ensures State() == ProxyState(PyNone, 0)
    {
      this.moduleName := moduleName;
      this.attrName := attrName;
      realObject := PyNone;
      execs := 0;
    }

    /** _load. */
    method Load(sys: ModuleTable, host: Host) returns (r: Outcome<()>)
      modifies this
      ensures (r, State()) == LoadStep(old(State()), moduleName, attrName, sys.modules, host)
    {
      r := Returned(());
      if realObject == PyNone {
        if moduleName !in sys.modules {
          return Raised(KeyError);
        }
        var mod := sys.modules[moduleName];
        if mod.loader.None? {
          return Raised(AttributeError);
        }
        execs := execs + 1;
        var ran := host.execModule(mod.loader.value, mod);
        if ran.Raised? {
          return Raised(ran.error);
        }
        var fetched := host.moduleAttr(mod, attrName);
        if fetched.Raised? {
          return Raised(fetched.error);
        }
        realObject := fetched.value;
      }
    }

    /** __call__. */
    method Call(sys: ModuleTable, host: Host, args: seq<Value>) returns (r: Outcome<Value>)
      modifies this
      ensures (r, State()) == UseStep(old(State()), CallWith(args), moduleName, attrName, sys.modules, host)
    {
      var loaded := Load(sys, host);
      if loaded.Raised? {
        return Raised(loaded.error);
      }
      if realObject == PyNone {
        return Raised(TypeError);
      }
      r := host.call(realObject, args);
    }

    /** __getattr__. */
    method GetAttr(sys: ModuleTable, host: Host, name: Name) returns (r: Outcome<Value>)
      modifies this
      ensures (r, State()) == UseStep(old(State()), ReadAttr(name), moduleName, attrName, sys.modules, host)
    {
      var loaded := Load(sys, host);
      if loaded.Raised? {
        return Raised(loaded.error);
      }
      r := host.valueAttr(realObject, name);
    }
  }

  // ---------------------------------------------------------------------------
  // the proxy module

  /** The body of lazy_load and setup_lazyload_module after find_spec returned `found`
      for a name not yet in the table: build the module from the spec, give it a
      LazyLoader around spec.loader as its loader and a module-level __getattr__ that
      hands out proxies for this name. A missing spec makes module_from_spec fail with
      AttributeError; an exception from find_spec propagates. */
  function NewLazyModule(found: Outcome<Option<Spec>>, fullname: Name, host: Host): (r: Outcome<Module>)
    ensures r.Returned? <==>
              match found
              case Returned(Some(spec)) => host.moduleFromSpec(spec).Returned? && host.wrapLazy(spec).Returned?
              case _ => false
    ensures forall spec :: found == Returned(Some(spec)) && r.Returned? ==>
              r.value == host.moduleFromSpec(spec).value.(loader := Some(host.wrapLazy(spec).value),
                                                          attrHook := Some(fullname))
    ensures found == Returned(None) ==> r == Raised(AttributeError)
    ensures found.Raised? ==> r == Raised(found.error)
  {
    match found
    case Raised(e) => Raised(e)
    case Returned(None) => Raised(AttributeError)
    case Returned(Some(spec)) =>
      match host.moduleFromSpec(spec)
      case Raised(e) => Raised(e)
      case Returned(created) =>
        match host.wrapLazy(spec)
        case Raised(e) => Raised(e)
        case Returned(loader) => Returned(created.(loader := Some(loader), attrHook := Some(fullname)))
  }

  /** The module-level __getattr__ installed on a proxy module: a fresh, unloaded proxy
      for (captured name, requested attribute). */
  method ModuleGetAttr(proxyModule: Module, name: Name) returns (p: LazyObject)
    requires proxyModule.attrHook.Some?
    ensures fresh(p)
    ensures p.moduleName == proxyModule.attrHook.value && p.attrName == name
    ensures p.State() == ProxyState(PyNone, 0)
  {
    p := new LazyObject(proxyModule.attrHook.value, name);
  }
}
