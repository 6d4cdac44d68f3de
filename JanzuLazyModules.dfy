/** janzu_lazy_modules.py: setup_lazy_modules collects every listed module name with all
    of its parent packages, sorts them from shallowest to deepest and registers each
    one the table does not have yet. */
module JanzuLazyModules {
  import opened Runtime
  import opened DottedNames

  /** The entry LAZY_MODULES lists twice. */
  const Gemini: Name := "predictors.contrib.google.gemini"

  /** The janzu project's LAZY_MODULES list, duplicate entry included. */
  const LazyModules: seq<Name> := [
    "google.cloud.aiplatform",
    "imblearn",
    "imblearn.over_sampling",
    "imblearn.under_sampling",
    "predictors.auto_prompt_engineer.auto_prompt_engineer",
    "predictors.contrib",
    "predictors.contrib.blip",
    "predictors.contrib.claude.claude_aws",
    Gemini,
    Gemini,
    "predictors.contrib.openai",
    "predictors.contrib.openai.openai",
    "predictors.contrib.openai.utils",
    "predictors.contrib.owlvit",
    "predictors.datasets",
    "predictors.datasets.class_balance",
    "predictors.datasets.dataset",
    "predictors.finetuning",
    "predictors.finetuning.fine_tuner_nearest_neighbor",
    "predictors.finetuning.predictions",
    "predictors.object_detection",
    "predictors.pipeline",
    "predictors.pipeline.exceptions",
    "predictors.pipeline.generic",
    "predictors.visual_reasoning",
    "predictors",
    "sklearn",
    "vertexai"
  ]

  // ---------------------------------------------------------------------------
  // collecting the names

  /** The first loop of setup_lazy_modules: every '.'.join(parts[:i+1]) of every listed name. */
  method CollectModules(lazyModules: seq<Name>) returns (all: set<Name>)
    ensures all == PrefixClosure(lazyModules)
  {
    all := {};
    for k := 0 to |lazyModules|
      invariant all == PrefixClosure(lazyModules[..k])
    {
      var parts := Split(lazyModules[k]);
      for i := 0 to |parts|
        invariant all == PrefixClosure(lazyModules[..k]) + JoinedPrefixes(parts, i)
      {
        assert JoinedPrefixes(parts, i + 1) == JoinedPrefixes(parts, i) + {JoinUpTo(parts, i)};
        all := all + {Join(parts[..i + 1])};
      }
      JoinedPrefixesAreDotted(lazyModules[k]);
      assert lazyModules[..k + 1][..k] == lazyModules[..k];
    }
    assert lazyModules[..|lazyModules|] == lazyModules;
  }

  // ---------------------------------------------------------------------------
  // sorting by depth

  /** `order` lists every member of `names` exactly once, shallowest first. */
  ghost predicate DepthSorted(order: seq<Name>, names: set<Name>)
  {
    && (forall i, j :: 0 <= i < j < |order| ==> order[i] != order[j])
    && (forall x :: x in names <==> x in order)
    && (forall i, j :: 0 <= i < j < |order| ==> Depth(order[i]) <= Depth(order[j]))
  }

  /** Every non-empty set of names has a shallowest member. */
  lemma {:induction false} ShallowestExists(names: set<Name>)
    requires names != {}
    ensures exists x :: x in names && forall y :: y in names ==> Depth(x) <= Depth(y)
    decreases |names|
  {
    var a :| a in names;
    var rest := names - {a};
    if names == {a} {
      forall y | y in names ensures Depth(a) <= Depth(y) {
        assert y in {a};
      }
    } else {
      ShallowestExists(rest);
      var m :| m in rest && forall y :: y in rest ==> Depth(m) <= Depth(y);
      var x := if Depth(a) <= Depth(m) then a else m;
      forall y | y in names ensures Depth(x) <= Depth(y) {
        if y != a {
          assert y in rest;
        }
      }
      assert x in names;
    }
  }

  /** sorted(all_modules, key=lambda x: x.count('.')): the order among names of equal
      depth is left open, as Python's set iteration order is. */
  method SortByDepth(names: set<Name>) returns (order: seq<Name>)
    ensures DepthSorted(order, names)
  {
    order := [];
    var rest := names;
    while rest != {}
      invariant forall x :: x in names <==> x in order || x in rest
      invariant forall x :: x in rest ==> x !in order
      invariant forall i, j :: 0 <= i < j < |order| ==> order[i] != order[j]
      invariant forall i, j :: 0 <= i < j < |order| ==> Depth(order[i]) <= Depth(order[j])
      invariant forall i, y :: 0 <= i < |order| && y in rest ==> Depth(order[i]) <= Depth(y)
      decreases |rest|
    {
      ShallowestExists(rest);
      var x :| x in rest && forall y :: y in rest ==> Depth(x) <= Depth(y);
      order := order + [x];
      rest := rest - {x};
    }
  }

  /** In a depth-sorted order of a set that holds the parent of each of its dotted
      members, every parent comes before its child. */
  lemma ParentBeforeChild(order: seq<Name>, names: set<Name>, j: nat)
    requires DepthSorted(order, names) && PrefixClosed(names)
    requires j < |order| && HasDot(order[j])
    ensures exists i :: 0 <= i < j && order[i] == Parent(order[j])
  {
    var p := Parent(order[j]);
    assert p in names;
    var i :| 0 <= i < |order| && order[i] == p;
    ParentDepth(order[j]);
    assert i < j;
  }

  /** Each listed name is processed exactly once, however often the list repeats it. */
  lemma ListedOnce(lazyModules: seq<Name>, order: seq<Name>, k: nat)
    requires DepthSorted(order, PrefixClosure(lazyModules))
    requires k < |lazyModules|
    ensures exists i :: 0 <= i < |order| && order[i] == lazyModules[k] &&
                        forall j :: 0 <= j < |order| && order[j] == lazyModules[k] ==> j == i
  {
    var i :| 0 <= i < |order| && order[i] == lazyModules[k];
    forall j | 0 <= j < |order| && order[j] == lazyModules[k] ensures j == i { }
  }

  /** "predictors.contrib.google.gemini" is listed twice and processed once. */
  lemma GeminiProcessedOnce(order: seq<Name>)
    requires DepthSorted(order, PrefixClosure(LazyModules))
    ensures LazyModules[8] == LazyModules[9] == Gemini
    ensures exists i :: 0 <= i < |order| && order[i] == Gemini &&
                        forall j :: 0 <= j < |order| && order[j] == Gemini ==> j == i
  {
    ListedOnce(LazyModules, order, 8);
  }

  /** Packages the list never names are collected too: the parents of
      "google.cloud.aiplatform". */
  lemma UnlistedParentsCollected()
    ensures "google.cloud" in PrefixClosure(LazyModules) && "google" in PrefixClosure(LazyModules)
  {
    var a := LazyModules[0];
    assert a == "google.cloud.aiplatform";
    assert a[..12] == "google.cloud" && a[12] == '.';
    assert a[..6] == "google" && a[6] == '.';
    assert "google.cloud" in DottedPrefixes(a);
    assert "google" in DottedPrefixes(a);
    PrefixClosureMembers(LazyModules, "google.cloud");
    PrefixClosureMembers(LazyModules, "google");
  }

  // ---------------------------------------------------------------------------
  // registering one name

  /** The exceptions the setup catches: ImportError (with ModuleNotFoundError) and AttributeError. */
  predicate Caught(e: ErrorKind)
  {
    e == ImportError || e == AttributeError
  }

  /** Where one name's setup ended: the loop continues, or an uncaught exception escapes. */
  datatype Step = Continue(modules: map<Name, Module>) | Abort(modules: map<Name, Module>, error: ErrorKind)

  /** The except clause: a caught exception registers a bare module, any other escapes.
      Either way, at most the entry under the name changes. */
  function Except(modules: map<Name, Module>, name: Name, e: ErrorKind): (r: Step)
    ensures Extends(modules - {name}, r.modules)
    ensures r.modules.Keys <= modules.Keys + {name}
    ensures r.Continue? ==> name in r.modules
  {
    if Caught(e) then Continue(modules[name := Bare(name)]) else Abort(modules, e)
  }

  /** The try block from find_spec on. find_spec sees the table and may import modules
      into it; the test `parent in sys.modules` for a missing spec runs after it. The
      write under the name replaces an entry the parent import may have left there. */
  function SetupFromSpec(modules: map<Name, Module>, name: Name, host: Host): (r: Step)
    ensures Extends(modules - {name}, r.modules)
    ensures r.Continue? && name !in r.modules ==> host.findSpec(modules, name).spec == Returned(None)
    ensures forall k :: k in r.modules && k !in modules && k != name ==> k in host.findSpec(modules, name).added
  {
    var found := host.findSpec(modules, name);
    var seen := Merge(modules, found.added);
    match found.spec
    case Raised(e) => Except(seen, name, e)
    case Returned(None) =>
      if HasDot(name) && Parent(name) in seen then Continue(seen[name := Bare(name)])
      else Continue(seen)
    case Returned(Some(spec)) =>
      match host.wrapLazy(spec)
      case Raised(e) => Except(seen, name, e)
      case Returned(loader) =>
        match host.createModule(loader, spec)
        case Raised(e) => Except(seen, name, e)
        case Returned(None) => Continue(seen[name := Bare(name)])
        case Returned(Some(created)) => Continue(seen[name := created])
  }

  /** The parent import `import_module(parent_name)` runs: the name is dotted and its parent is missing. */
  predicate ImportsParent(modules: map<Name, Module>, name: Name)
  {
    HasDot(name) && Parent(name) !in modules
  }

  /** The table find_spec is called with: after the parent import, when that ran. */
  function BeforeSpec(modules: map<Name, Module>, name: Name, host: Host): map<Name, Module>
  {
    if ImportsParent(modules, name) then Merge(modules, host.importModule(modules, Parent(name)).added)
    else modules
  }

  /** The parent import did not run, or ran without raising. */
  predicate ParentImportOk(modules: map<Name, Module>, name: Name, host: Host)
  {
    ImportsParent(modules, name) ==> host.importModule(modules, Parent(name)).raised.None?
  }

  /** The table after find_spec's own imports. */
  function AfterSpec(modules: map<Name, Module>, name: Name, host: Host): map<Name, Module>
  {
    var before := BeforeSpec(modules, name, host);
    Merge(before, host.findSpec(before, name).added)
  }

  /** What find_spec answered for the name, given the table it saw. */
  function SpecOf(modules: map<Name, Module>, name: Name, host: Host): Outcome<Option<Spec>>
  {
    host.findSpec(BeforeSpec(modules, name, host), name).spec
  }

  /** One pass of the second loop of setup_lazy_modules, for one name. */
  function SetupOne(modules: map<Name, Module>, name: Name, host: Host): (r: Step)
    ensures Extends(modules, r.modules)
    ensures name in modules ==> r == Continue(modules)
    ensures r.Continue? && name !in r.modules ==> SpecOf(modules, name, host) == Returned(None)
    ensures forall k :: k in r.modules && k !in modules && k != name ==>
              || (ImportsParent(modules, name) && k in host.importModule(modules, Parent(name)).added)
              || k in host.findSpec(BeforeSpec(modules, name, host), name).added
  {
    if name in modules then Continue(modules)
    else if HasDot(name) && Parent(name) !in modules then
      var imported := host.importModule(modules, Parent(name));
      var merged := Merge(modules, imported.added);
      if imported.raised.Some? then Except(merged, name, imported.raised.value)
      else SetupFromSpec(merged, name, host)
    else SetupFromSpec(modules, name, host)
  }

  /** With no spec, a dotted name whose parent is registered by then gets a bare module. */
  lemma NoSpecParentPresent(modules: map<Name, Module>, name: Name, host: Host)
    requires name !in modules && ParentImportOk(modules, name, host)
    requires SpecOf(modules, name, host) == Returned(None)
    requires HasDot(name) && Parent(name) in AfterSpec(modules, name, host)
    ensures SetupOne(modules, name, host) == Continue(AfterSpec(modules, name, host)[name := Bare(name)])
  {
  }

  /** With no spec and no registered parent (or no dot at all), the name gets no entry of
      its own: only the imports on the way change the table. */
  lemma NoSpecSkipped(modules: map<Name, Module>, name: Name, host: Host)
    requires name !in modules && ParentImportOk(modules, name, host)
    requires SpecOf(modules, name, host) == Returned(None)
    requires !(HasDot(name) && Parent(name) in AfterSpec(modules, name, host))
    ensures SetupOne(modules, name, host) == Continue(AfterSpec(modules, name, host))
  {
  }

  /** With a spec, the name gets the module the loader created, or a bare one if it
      created none, also when the parent had to be imported first. */
  lemma SpecFoundRegistersCreated(modules: map<Name, Module>, name: Name, host: Host,
                                  spec: Spec, loader: Loader, created: Option<Module>)
    requires name !in modules && ParentImportOk(modules, name, host)
    requires SpecOf(modules, name, host) == Returned(Some(spec))
    requires host.wrapLazy(spec) == Returned(loader)
    requires host.createModule(loader, spec) == Returned(created)
    ensures SetupOne(modules, name, host) ==
              Continue(AfterSpec(modules, name, host)[name := if created.Some? then created.value else Bare(name)])
  {
  }

  /** An ImportError or AttributeError from the parent's import registers a bare module
      under the name; any other exception escapes. */
  lemma ParentImportErrorRegistersBare(modules: map<Name, Module>, name: Name, host: Host, e: ErrorKind)
    requires name !in modules && ImportsParent(modules, name)
    requires host.importModule(modules, Parent(name)).raised == Some(e)
    ensures Caught(e) ==> SetupOne(modules, name, host) == Continue(BeforeSpec(modules, name, host)[name := Bare(name)])
    ensures !Caught(e) ==> SetupOne(modules, name, host) == Abort(BeforeSpec(modules, name, host), e)
  {
  }

  /** find_spec, LazyLoader or create_module raising: an ImportError or AttributeError
      registers a bare module under the name, also when the parent had to be imported
      first; any other exception escapes. */
  lemma ErrorRegistersBare(modules: map<Name, Module>, name: Name, host: Host, e: ErrorKind)
    requires name !in modules && ParentImportOk(modules, name, host)
    requires || SpecOf(modules, name, host) == Raised(e)
             || exists spec :: SpecOf(modules, name, host) == Returned(Some(spec)) &&
                  (|| host.wrapLazy(spec) == Raised(e)
                   || (host.wrapLazy(spec).Returned? && host.createModule(host.wrapLazy(spec).value, spec) == Raised(e)))
    ensures Caught(e) ==> SetupOne(modules, name, host) == Continue(AfterSpec(modules, name, host)[name := Bare(name)])
    ensures !Caught(e) ==> SetupOne(modules, name, host) == Abort(AfterSpec(modules, name, host), e)
  {
  }

  // ---------------------------------------------------------------------------
  // the whole loop

  /** The second loop of setup_lazy_modules over `order`; an uncaught exception ends it.
      No entry the table already had is removed or replaced. */
  function SetupAll(modules: map<Name, Module>, order: seq<Name>, host: Host): (r: Step)
    ensures Extends(modules, r.modules)
    decreases |order|
  {
    if order == [] then Continue(modules)
    else
      match SetupAll(modules, order[..|order| - 1], host)
      case Abort(m, e) => Abort(m, e)
      case Continue(m) => SetupOne(m, order[|order| - 1], host)
  }

  /** The name at position i of the order had no spec when its turn came. */
  ghost predicate NoSpecAtTurn(modules: map<Name, Module>, order: seq<Name>, i: nat, host: Host)
    requires i < |order|
  {
    SpecOf(SetupAll(modules, order[..i], host).modules, order[i], host) == Returned(None)
  }

  /** After a normal end, every processed name is registered unless find_spec found no
      spec for it when its turn came. */
  lemma {:induction false} SetupAllCovers(modules: map<Name, Module>, order: seq<Name>, host: Host)
    requires SetupAll(modules, order, host).Continue?
    ensures forall i :: 0 <= i < |order| ==>
              order[i] in SetupAll(modules, order, host).modules || NoSpecAtTurn(modules, order, i, host)
    decreases |order|
  {
    if order != [] {
      var last := |order| - 1;
      var init := order[..last];
      SetupAllCovers(modules, init, host);
      var before := SetupAll(modules, init, host).modules;
      var after := SetupAll(modules, order, host).modules;
      assert Extends(before, after);
      forall i | 0 <= i < |order| ensures order[i] in after || NoSpecAtTurn(modules, order, i, host) {
        if i < last {
          assert order[..i] == init[..i] && order[i] == init[i];
          assert order[i] in before || NoSpecAtTurn(modules, init, i, host);
        } else {
          assert order[..i] == init;
        }
      }
    }
  }

  /** One more turn of the loop: the name at position i is set up on the table so far. */
  lemma SetupAllStep(modules: map<Name, Module>, order: seq<Name>, i: nat, host: Host)
    requires i < |order| && SetupAll(modules, order[..i], host).Continue?
    ensures SetupAll(modules, order[..i + 1], host) ==
              SetupOne(SetupAll(modules, order[..i], host).modules, order[i], host)
  {
    assert order[..i + 1][..i] == order[..i];
  }

  /** Once an exception escapes, the names after it change nothing. */
  lemma {:induction false} SetupAllAbortSticky(modules: map<Name, Module>, order: seq<Name>, k: nat, host: Host)
    requires k <= |order|
    requires SetupAll(modules, order[..k], host).Abort?
    ensures SetupAll(modules, order, host) == SetupAll(modules, order[..k], host)
    decreases |order| - k
  {
    if k < |order| {
      var prefix := order[..k + 1];
      assert prefix[..|prefix| - 1] == order[..k];
      assert SetupAll(modules, prefix, host) == SetupAll(modules, order[..k], host);
      SetupAllAbortSticky(modules, order, k + 1, host);
    } else {
      assert order[..k] == order;
    }
  }

  /** setup_lazy_modules, for the given list (setup_lazy_modules passes LAZY_MODULES). */
  method SetupLazyModules(sys: ModuleTable, lazyModules: seq<Name>, host: Host)
    returns (r: Outcome<()>, ghost order: seq<Name>)
    modifies sys
    ensures DepthSorted(order, PrefixClosure(lazyModules))
    ensures SetupAll(old(sys.modules), order, host) ==
              if r.Returned? then Continue(sys.modules) else Abort(sys.modules, r.error)
    ensures Extends(old(sys.modules), sys.modules)
    ensures r.Returned? ==> forall i :: 0 <= i < |order| ==>
              order[i] in sys.modules || NoSpecAtTurn(old(sys.modules), order, i, host)
  {
    var all := CollectModules(lazyModules);
    var sorted := SortByDepth(all);
    order := sorted;
    r := Returned(());
    for i := 0 to |sorted|
      invariant SetupAll(old(sys.modules), sorted[..i], host) == Continue(sys.modules)
    {
      SetupAllStep(old(sys.modules), sorted, i, host);
      var step := SetupOne(sys.modules, sorted[i], host);
      sys.modules := step.modules;
      if step.Abort? {
        r := Raised(step.error);
        SetupAllAbortSticky(old(sys.modules), sorted, i + 1, host);
        return;
      }
    }
    assert sorted[..|sorted|] == sorted;
    SetupAllCovers(old(sys.modules), sorted, host);
  }
}
