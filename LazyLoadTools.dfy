/** lazyloadtools.py: setup_lazyload_module registers a proxy module under a name
    unless the table already has one; _get_lazy_object builds the attribute proxies. */
module LazyLoadTools {
  import opened Runtime
  import opened LazyObjects
  import Lazy

  /** _get_lazy_object(fullname, name): a fresh proxy for that pair, nothing loaded. */
  method GetLazyObject(fullname: Name, name: Name) returns (p: LazyObject)
    ensures fresh(p)
    ensures p.moduleName == fullname && p.attrName == name
    ensures p.State() == ProxyState(PyNone, 0)
  {
    p := new LazyObject(fullname, name);
  }

  /** setup_lazyload_module(fullname) as an update of the table: nothing when the name is
      present; otherwise find_spec runs (and may import the parent package), and the
      proxy module built for the name is written under it. */
  function SetupLazyloadModuleEffect(modules: map<Name, Module>, fullname: Name, host: Host): (r: (Outcome<()>, map<Name, Module>))
    ensures fullname in modules ==> r == (Returned(()), modules)
    ensures r.0.Returned? ==> fullname in r.1
    ensures r.0.Raised? ==> r.1 == Merge(modules, host.findSpec(modules, fullname).added)
    ensures fullname !in modules && fullname !in host.findSpec(modules, fullname).added ==>
              (r.0.Returned? <==> fullname in r.1)
    ensures forall k :: k in r.1 && k !in modules && k != fullname ==>
              k in host.findSpec(modules, fullname).added
    ensures Extends(modules, r.1)
  {
    if fullname in modules then (Returned(()), modules)
    else
      var found := host.findSpec(modules, fullname);
      var seen := Merge(modules, found.added);
      match NewLazyModule(found.spec, fullname, host)
      case Raised(e) => (Raised(e), seen)
      case Returned(m) => (Returned(()), seen[fullname := m])
  }

  /** After a setup_lazyload_module that returned normally, a second one of the same name
      changes nothing. */
  lemma SetupLazyloadModuleIdempotent(modules: map<Name, Module>, fullname: Name, host: Host)
    requires SetupLazyloadModuleEffect(modules, fullname, host).0.Returned?
    ensures var after := SetupLazyloadModuleEffect(modules, fullname, host).1;
            SetupLazyloadModuleEffect(after, fullname, host) == (Returned(()), after)
  {
  }

  /** setup_lazyload_module and lazy_load leave the table in the same state and fail alike. */
  lemma SetupLazyloadModuleAgreesWithLazyLoad(modules: map<Name, Module>, fullname: Name, host: Host)
    ensures var (r, after) := SetupLazyloadModuleEffect(modules, fullname, host);
            var (r', after') := Lazy.LazyLoadEffect(modules, fullname, host);
            after == after' && r.Returned? == r'.Returned?
  {
  }

  /** setup_lazyload_module: the table is written twice, with the same module. */
  method SetupLazyloadModule(sys: ModuleTable, fullname: Name, host: Host) returns (r: Outcome<()>)
    modifies sys
    ensures (r, sys.modules) == SetupLazyloadModuleEffect(old(sys.modules), fullname, host)
  {
    if fullname in sys.modules {
      return Returned(());
    }
    var found := host.findSpec(sys.modules, fullname);
    sys.modules := Merge(sys.modules, found.added);
    var created := NewLazyModule(found.spec, fullname, host);
    if created.Raised? {
      return Raised(created.error);
    }
    var proxyModule := created.value;
    ghost var seen := sys.modules;
    sys.modules := sys.modules[fullname := proxyModule];
    sys.modules := sys.modules[fullname := proxyModule];
    assert sys.modules == seen[fullname := proxyModule];
    r := Returned(());
  }

  /** The __getattr__ lambda installed on the module: _get_lazy_object for the captured name. */
  method ProxyModuleGetAttr(proxyModule: Module, name: Name) returns (p: LazyObject)
    requires proxyModule.attrHook.Some?
    ensures fresh(p)
    ensures p.moduleName == proxyModule.attrHook.value && p.attrName == name
    ensures p.State() == ProxyState(PyNone, 0)
  {
    p := GetLazyObject(proxyModule.attrHook.value, name);
  }
}
