/** lazy.py: lazy_load registers a proxy module under a name unless the table already
    has one, and setup_lazy_load does so for each name of its list. */
module Lazy {
  import opened Runtime
  import opened LazyObjects

  /** The names setup_lazy_load registers, in order. */
  const LazyModules: seq<Name> := ["science", "science.pack", "science.pack.slow", "science.pack.junk"]

  /** lazy_load(fullname) as an update of the table: the entry already there is returned
      untouched; otherwise find_spec runs (and may import the parent package), then a
      new proxy module is built and registered under fullname. */
  function LazyLoadEffect(modules: map<Name, Module>, fullname: Name, host: Host): (r: (Outcome<Module>, map<Name, Module>))
    ensures fullname in modules ==> r == (Returned(modules[fullname]), modules)
    ensures r.0.Returned? ==> fullname in r.1 && r.1[fullname] == r.0.value
    ensures r.0.Raised? ==> r.1 == Merge(modules, host.findSpec(modules, fullname).added)
    ensures Extends(modules, r.1)
    ensures forall k :: k in r.1 && k !in modules && k != fullname ==>
              k in host.findSpec(modules, fullname).added
  {
    if fullname in modules then (Returned(modules[fullname]), modules)
    else
      var found := host.findSpec(modules, fullname);
      var seen := Merge(modules, found.added);
      match NewLazyModule(found.spec, fullname, host)
      case Raised(e) => (Raised(e), seen)
      case Returned(m) => (Returned(m), seen[fullname := m])
  }

  /** An absent name gets the proxy module built from its spec, written over whatever
      find_spec's own imports left in the table; the module's __getattr__ hook hands out
      proxies for that name. */
  lemma LazyLoadInsertsProxyModule(modules: map<Name, Module>, fullname: Name, host: Host, spec: Spec)
    requires fullname !in modules
    requires host.findSpec(modules, fullname).spec == Returned(Some(spec))
    requires LazyLoadEffect(modules, fullname, host).0.Returned?
    ensures var (r, after) := LazyLoadEffect(modules, fullname, host);
            && after == Merge(modules, host.findSpec(modules, fullname).added)[fullname := r.value]
            && r.value == host.moduleFromSpec(spec).value.(loader := Some(host.wrapLazy(spec).value),
                                                           attrHook := Some(fullname))
  {
  }

  /** When find_spec imports nothing, lazy_load adds at most the one key fullname, and a
      failure leaves the table as it was. */
  lemma LazyLoadWithoutImports(modules: map<Name, Module>, fullname: Name, host: Host)
    requires fullname in modules || host.findSpec(modules, fullname).added == map[]
    ensures var (r, after) := LazyLoadEffect(modules, fullname, host);
            && after.Keys <= modules.Keys + {fullname}
            && (r.Raised? ==> after == modules)
  {
    if fullname !in modules {
      assert Merge(modules, map[]) == modules;
    }
  }

  /** lazy_load is idempotent: a second call returns the entry the first one returned and
      leaves the table as the first call left it. */
  lemma LazyLoadIdempotent(modules: map<Name, Module>, fullname: Name, host: Host)
    requires LazyLoadEffect(modules, fullname, host).0.Returned?
    ensures var (r, after) := LazyLoadEffect(modules, fullname, host);
            LazyLoadEffect(after, fullname, host) == (r, after)
  {
  }

  /** lazy_load. */
  method LazyLoad(sys: ModuleTable, fullname: Name, host: Host) returns (r: Outcome<Module>)
    modifies sys
    ensures (r, sys.modules) == LazyLoadEffect(old(sys.modules), fullname, host)
  {
    if fullname in sys.modules {
      return Returned(sys.modules[fullname]);
    }
    var found := host.findSpec(sys.modules, fullname);
    sys.modules := Merge(sys.modules, found.added);
    r := NewLazyModule(found.spec, fullname, host);
    if r.Returned? {
      sys.modules := sys.modules[fullname := r.value];
    }
  }

  /** setup_lazy_load over the given names: sys.modules[name] = lazy_load(name) for each
      name in turn; the first exception ends the loop and propagates. */
  function SetupLazyLoadEffect(modules: map<Name, Module>, names: seq<Name>, host: Host): (r: (Outcome<()>, map<Name, Module>))
    ensures Extends(modules, r.1)
    decreases |names|
  {
    if names == [] then (Returned(()), modules)
    else
      var (done, before) := SetupLazyLoadEffect(modules, names[..|names| - 1], host);
      if done.Raised? then (done, before)
      else
        var name := names[|names| - 1];
        var (loaded, after) := LazyLoadEffect(before, name, host);
        if loaded.Raised? then (Raised(loaded.error), after)
        else (Returned(()), after[name := loaded.value])
  }

  /** find_spec imported k while setup_lazy_load was registering one of the names. */
  ghost predicate ImportedDuring(modules: map<Name, Module>, names: seq<Name>, host: Host, k: Name)
  {
    exists i :: 0 <= i < |names| && k in host.findSpec(SetupLazyLoadEffect(modules, names[..i], host).1, names[i]).added
  }

  /** One more name: a new key is that name or one find_spec imported while registering it. */
  lemma SetupLazyLoadStepKeys(modules: map<Name, Module>, names: seq<Name>, host: Host)
    requires names != []
    ensures var init := names[..|names| - 1];
            var before := SetupLazyLoadEffect(modules, init, host).1;
            forall k :: k in SetupLazyLoadEffect(modules, names, host).1 && k !in before ==>
              k == names[|names| - 1] || k in host.findSpec(before, names[|names| - 1]).added
  {
  }

  /** A find_spec import during a shorter run is one during the longer run. */
  lemma ImportedDuringExtends(modules: map<Name, Module>, names: seq<Name>, host: Host, k: Name)
    requires names != [] && ImportedDuring(modules, names[..|names| - 1], host, k)
    ensures ImportedDuring(modules, names, host, k)
  {
    var init := names[..|names| - 1];
    var i :| 0 <= i < |init| && k in host.findSpec(SetupLazyLoadEffect(modules, init[..i], host).1, init[i]).added;
    assert init[..i] == names[..i] && init[i] == names[i];
  }

  /** Every key setup_lazy_load adds is a listed name or a module find_spec imported on
      the way. */
  lemma {:induction false} SetupLazyLoadNewKeys(modules: map<Name, Module>, names: seq<Name>, host: Host)
    ensures var after := SetupLazyLoadEffect(modules, names, host).1;
            forall k :: k in after && k !in modules ==> k in names || ImportedDuring(modules, names, host, k)
    decreases |names|
  {
    if names != [] {
      var last := |names| - 1;
      var init := names[..last];
      SetupLazyLoadNewKeys(modules, init, host);
      SetupLazyLoadStepKeys(modules, names, host);
      var before := SetupLazyLoadEffect(modules, init, host).1;
      var after := SetupLazyLoadEffect(modules, names, host).1;
      forall k | k in after && k !in modules ensures k in names || ImportedDuring(modules, names, host, k) {
        if k in before {
          if k in init {
            assert k in names;
          } else {
            ImportedDuringExtends(modules, names, host, k);
          }
        } else if k != names[last] {
          assert k in host.findSpec(SetupLazyLoadEffect(modules, names[..last], host).1, names[last]).added;
        }
      }
    }
  }

  /** After setup_lazy_load returns normally, every listed name is in the table. */
  lemma {:induction false} SetupLazyLoadRegistersAll(modules: map<Name, Module>, names: seq<Name>, host: Host)
    requires SetupLazyLoadEffect(modules, names, host).0.Returned?
    ensures forall n :: n in names ==> n in SetupLazyLoadEffect(modules, names, host).1
    decreases |names|
  {
    if names != [] {
      var init := names[..|names| - 1];
      SetupLazyLoadRegistersAll(modules, init, host);
      var before := SetupLazyLoadEffect(modules, init, host).1;
      var after := SetupLazyLoadEffect(modules, names, host).1;
      assert Extends(before, after);
      forall n | n in names ensures n in after {
        if n != names[|names| - 1] {
          assert n in init;
        }
      }
    }
  }

  /** setup_lazy_load. */
  method SetupLazyLoad(sys: ModuleTable, names: seq<Name>, host: Host) returns (r: Outcome<()>)
    modifies sys
    ensures (r, sys.modules) == SetupLazyLoadEffect(old(sys.modules), names, host)
  {
    for i := 0 to |names|
      invariant SetupLazyLoadEffect(old(sys.modules), names[..i], host) == (Returned(()), sys.modules)
    {
      assert names[..i + 1][..i] == names[..i];
      var loaded := LazyLoad(sys, names[i], host);
      if loaded.Raised? {
        r := Raised(loaded.error);
        SetupLazyLoadAbortSticky(old(sys.modules), names, i + 1, host);
        return;
      }
      sys.modules := sys.modules[names[i] := loaded.value];
    }
    assert names[..|names|] == names;
    r := Returned(());
  }

  /** Once an exception ends the loop, the names after it change nothing. */
  lemma {:induction false} SetupLazyLoadAbortSticky(modules: map<Name, Module>, names: seq<Name>, k: nat, host: Host)
    requires k <= |names|
    requires SetupLazyLoadEffect(modules, names[..k], host).0.Raised?
    ensures SetupLazyLoadEffect(modules, names, host) == SetupLazyLoadEffect(modules, names[..k], host)
    decreases |names| - k
  {
    if k < |names| {
      assert names[..k + 1][..k] == names[..k];
      SetupLazyLoadAbortSticky(modules, names, k + 1, host);
    } else {
      assert names[..k] == names;
    }
  }

  /** With the project's own list, a normal return of setup_lazy_load leaves all four
      science modules registered. */
  lemma LazyModulesRegistered(modules: map<Name, Module>, host: Host)
    requires SetupLazyLoadEffect(modules, LazyModules, host).0.Returned?
    ensures var after := SetupLazyLoadEffect(modules, LazyModules, host).1;
            "science" in after && "science.pack" in after &&
            "science.pack.slow" in after && "science.pack.junk" in after
  {
    SetupLazyLoadRegistersAll(modules, LazyModules, host);
    assert LazyModules[2] == "science.pack.slow";
  }
}
