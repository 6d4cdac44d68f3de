/** The Python runtime that the lazy-import helpers run inside: values, exceptions,
    module objects, the process-wide module table (sys.modules) and the library
    calls the helpers make but do not define. */
module Runtime {

  /** A dotted module name or an attribute name. */
  type Name = string

  datatype Option<T> = None | Some(value: T)

  /** The exceptions the helpers raise, propagate or catch.
      ModuleNotFoundError is folded into ImportError, its base class. */
  datatype ErrorKind = KeyError | ImportError | AttributeError | TypeError | ValueError | OtherError

  /** What a Python call produced: the value it returned or the exception it raised. */
  datatype Outcome<T> = Returned(value: T) | Raised(error: ErrorKind)

  /** An arbitrary Python object. None is singled out because the proxies use it as
      their "not loaded yet" sentinel. */
  datatype Value = PyNone | PyObj(id: nat)

  /** A module spec as find_spec hands it out; `loader` identifies spec.loader. */
  datatype Spec = Spec(name: Name, loader: nat)

  /** A module's __loader__: importlib's LazyLoader around a spec's loader, or any other loader. */
  datatype Loader = LazyLoader(wrapped: nat) | PlainLoader(id: nat)

  /** A module object: its __name__, its __loader__ (None for a bare ModuleType) and the
      module-level __getattr__ hook installed by the lazy setup, recorded by the module
      name that the hook's closure captured. */
  datatype Module = Module(name: Name, loader: Option<Loader>, attrHook: Option<Name>)

  /** types.ModuleType(name): a bare module with no loader and no hook. */
  function Bare(name: Name): (m: Module)
    ensures m.name == name && m.loader.None? && m.attrHook.None?
  {
    Module(name, None, None)
  }

  /** What importlib.import_module left behind: the modules it added to the table
      and the exception it raised, if any (a failed import keeps what it imported
      before failing). */
  datatype Imported = Imported(added: map<Name, Module>, raised: Option<ErrorKind>)

  /** What importlib.util.find_spec left behind: the modules it imported on the way
      (for a dotted name, the parent package when the table lacked it) and the spec it
      returned, None, or the exception it raised. */
  datatype Lookup = Lookup(added: map<Name, Module>, spec: Outcome<Option<Spec>>)

  /** The calls into the Python runtime and importlib whose code is not part of the
      model. Each is an arbitrary function, so every property proved holds for all of
      their behaviours. */
  datatype Host = Host(
    findSpec: (map<Name, Module>, Name) -> Lookup,           // importlib.util.find_spec(name)
    moduleFromSpec: Spec -> Outcome<Module>,                 // importlib.util.module_from_spec(spec)
    wrapLazy: Spec -> Outcome<Loader>,                       // importlib.util.LazyLoader(spec.loader)
    createModule: (Loader, Spec) -> Outcome<Option<Module>>, // loader.create_module(spec)
    importModule: (map<Name, Module>, Name) -> Imported,     // importlib.import_module(name)
    execModule: (Loader, Module) -> Outcome<()>,             // loader.exec_module(module)
    moduleAttr: (Module, Name) -> Outcome<Value>,            // getattr(module, name)
    valueAttr: (Value, Name) -> Outcome<Value>,              // getattr(obj, name)
    call: (Value, seq<Value>) -> Outcome<Value>)             // obj(*args, **kwargs)

  /** `after` keeps every entry of `before`, unchanged. */
  ghost predicate Extends(before: map<Name, Module>, after: map<Name, Module>)
  {
    forall k :: k in before ==> k in after && after[k] == before[k]
  }

  /** The table after an import: the modules it added go in where the table had no
      entry; an entry already there is never replaced. */
  function Merge(modules: map<Name, Module>, added: map<Name, Module>): (r: map<Name, Module>)
    ensures Extends(modules, r)
    ensures r.Keys == modules.Keys + added.Keys
    ensures forall k :: k in r && k !in modules ==> r[k] == added[k]
  {
    map k | k in modules.Keys + added.Keys :: if k in modules then modules[k] else added[k]
  }

  /** sys.modules: the process-wide table from dotted names to module objects. */
  class ModuleTable {
    var modules: map<Name, Module>

    constructor (initial: map<Name, Module>)
      ensures modules == initial
    {
      modules := initial;
    }
  }
}
