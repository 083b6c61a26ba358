/**
 * The static module manager: it asks a generator function for the factory
 * of every configured module name, lets each factory create its instances,
 * and keeps at most one instance per unique name.  When a name comes back a
 * second time the priorities decide: a smaller priority value wins and
 * replaces the stored instance, a larger one is dropped, and an equal one is
 * an ambiguous instantiation.
 *
 * The registry is the list modules_ and the two mutually inverse maps
 * id_to_module_ (keyed by unique name) and module_to_id_ (keyed by module).
 * A module is known by its address in the source; the model gives every
 * created instance a serial number instead, which is never reused.
 * Exceptions become an error value; the state reached before the throw is
 * kept, as it is in the source.
 */
module StaticModuleManager {
  import opened Outcomes

  /** The identifier a factory gives an instance; maps compare it by unique name only. */
  datatype ModuleIdentifier = ModuleIdentifier(uniqueName: string, identifier: string, priority: int)

  /** A module instance, known by the serial number of its creation. */
  datatype Module = Module(serial: nat)

  /** A section of the configuration: the module name and its key/value pairs. */
  datatype Configuration = Configuration(name: string, parameters: map<string, string>)

  /** A factory configured with a section creates the identifiers of its instances. */
  type Factory = Configuration -> seq<ModuleIdentifier>

  /** The generator function maps a module name to its factory, or to null. */
  type Generator = string -> Option<Factory>

  /** What the constructor and load throw. */
  datatype ManagerError = NullGenerator
  datatype LoadError = InstantiationError(name: string) | AmbiguousInstantiationError(name: string)

  /** A value of id_to_module_: the identifier stored as key and the module in modules_. */
  datatype Entry = Entry(identifier: ModuleIdentifier, mod: Module)

  /** The registry as a value: modules_, id_to_module_, module_to_id_ and the next serial. */
  datatype Registry = Registry(
    modules: seq<Module>,
    idToModule: map<string, Entry>,
    moduleToId: map<Module, ModuleIdentifier>,
    nextSerial: nat)

  /** The registry after a step of load, and the exception that step threw, if any. */
  datatype Outcome = Outcome(registry: Registry, error: Option<LoadError>)

  const EmptyRegistry := Registry([], map[], map[], 0)

  // ---------------------------------------------------------------------------
  // The invariant of the registry
  // ---------------------------------------------------------------------------

  predicate Distinct(modules: seq<Module>)
  {
    forall i, j :: 0 <= i < j < |modules| ==> modules[i] != modules[j]
  }

  /**
   * modules_ holds no module twice and only modules already created; the
   * maps cover exactly the modules of the list and are inverse to each other.
   */
  ghost predicate Valid(reg: Registry)
  {
    Distinct(reg.modules) &&
    (forall i :: 0 <= i < |reg.modules| ==> reg.modules[i].serial < reg.nextSerial) &&
    (forall m :: m in reg.moduleToId <==> m in reg.modules) &&
    (forall k :: k in reg.idToModule ==>
       reg.idToModule[k].identifier.uniqueName == k &&
       reg.idToModule[k].mod in reg.moduleToId &&
       reg.moduleToId[reg.idToModule[k].mod] == reg.idToModule[k].identifier) &&
    (forall m :: m in reg.moduleToId ==>
       reg.moduleToId[m].uniqueName in reg.idToModule &&
       reg.idToModule[reg.moduleToId[m].uniqueName].mod == m)
  }

  // ---------------------------------------------------------------------------
  // load as specification functions
  // ---------------------------------------------------------------------------

  /** s without x (std::list::erase at the position of x). */
  function Erase(s: seq<Module>, x: Module): (r: seq<Module>)
    ensures forall y :: y in r <==> y in s && y != x
    ensures x !in s ==> r == s
  {
    if s == [] then []
    else (if s[0] == x then [] else [s[0]]) + Erase(s[1..], x)
  }

  /** emplace_back and the two map insertions for a new module. */
  function Insert(reg: Registry, id: ModuleIdentifier, m: Module): (r: Registry)
    ensures r.modules == reg.modules + [m]
    ensures m in r.moduleToId && r.moduleToId[m] == id && r.moduleToId - {m} == reg.moduleToId - {m}
    ensures id.uniqueName in r.idToModule && r.idToModule[id.uniqueName] == Entry(id, m)
    ensures r.idToModule - {id.uniqueName} == reg.idToModule - {id.uniqueName}
    ensures r.nextSerial == reg.nextSerial
  {
    reg.(modules := reg.modules + [m],
         idToModule := reg.idToModule[id.uniqueName := Entry(id, m)],
         moduleToId := reg.moduleToId[m := id])
  }

  /** The three erase calls that drop the module stored under a unique name. */
  function Drop(reg: Registry, k: string): (r: Registry)
    requires k in reg.idToModule
    ensures k !in r.idToModule && reg.idToModule[k].mod !in r.modules && reg.idToModule[k].mod !in r.moduleToId
    ensures r.modules == Erase(reg.modules, reg.idToModule[k].mod)
    ensures r.idToModule == reg.idToModule - {k} && r.moduleToId == reg.moduleToId - {reg.idToModule[k].mod}
    ensures r.nextSerial == reg.nextSerial
  {
    var old_ := reg.idToModule[k].mod;
    reg.(modules := Erase(reg.modules, old_),
         idToModule := reg.idToModule - {k},
         moduleToId := reg.moduleToId - {old_})
  }

  /** One created instance of the section named confName, as the body of the inner loop treats it. */
  function Admit(reg: Registry, id: ModuleIdentifier, confName: string): (r: Outcome)
    ensures r.registry.nextSerial == reg.nextSerial + 1
    ensures r.error.Some? <==>
              id.uniqueName in reg.idToModule && reg.idToModule[id.uniqueName].identifier.priority == id.priority
    ensures r.error.Some? ==>
              r.error.value == AmbiguousInstantiationError(confName) && r.registry == reg.(nextSerial := reg.nextSerial + 1)
    // a new unique name: the instance is appended and registered
    ensures id.uniqueName !in reg.idToModule ==>
              r.error.None? && r.registry.modules == reg.modules + [Module(reg.nextSerial)] &&
              r.registry.idToModule == reg.idToModule[id.uniqueName := Entry(id, Module(reg.nextSerial))]
    // a smaller stored priority value: the instance is dropped and nothing else changes
    ensures id.uniqueName in reg.idToModule && reg.idToModule[id.uniqueName].identifier.priority < id.priority ==>
              r == Outcome(reg.(nextSerial := reg.nextSerial + 1), None)
    // a larger stored priority value: the stored module is erased and the instance appended in its place
    ensures id.uniqueName in reg.idToModule && reg.idToModule[id.uniqueName].identifier.priority > id.priority ==>
              r.error.None? &&
              r.registry.modules == Erase(reg.modules, reg.idToModule[id.uniqueName].mod) + [Module(reg.nextSerial)] &&
              r.registry.idToModule == reg.idToModule[id.uniqueName := Entry(id, Module(reg.nextSerial))]
  {
    var m := Module(reg.nextSerial);
    var created := reg.(nextSerial := reg.nextSerial + 1);
    if id.uniqueName in reg.idToModule then
      var stored := reg.idToModule[id.uniqueName].identifier;
      if stored.priority > id.priority then Outcome(Insert(Drop(created, id.uniqueName), id, m), None)
      else if stored.priority == id.priority then Outcome(created, Some(AmbiguousInstantiationError(confName)))
      else Outcome(created, None)
    else Outcome(Insert(created, id, m), None)
  }

  /** The instances of one section in order, stopping at the first exception. */
  function AdmitAll(reg: Registry, ids: seq<ModuleIdentifier>, confName: string): (r: Outcome)
    ensures r.error.Some? ==> r.error.value == AmbiguousInstantiationError(confName)
    ensures reg.nextSerial <= r.registry.nextSerial <= reg.nextSerial + |ids|
    ensures r.error.None? ==> r.registry.nextSerial == reg.nextSerial + |ids|
    decreases |ids|
  {
    if ids == [] then Outcome(reg, None)
    else
      var before := AdmitAll(reg, ids[..|ids| - 1], confName);
      if before.error.Some? then before else Admit(before.registry, ids[|ids| - 1], confName)
  }

  /** One section: skipped when its name is empty, an InstantiationError when the factory is null. */
  function LoadConfig(reg: Registry, conf: Configuration, generator: Generator): (r: Outcome)
    ensures conf.name == "" ==> r.error.None? && r.registry == reg
    ensures r.error == Some(InstantiationError(conf.name)) <==> conf.name != "" && generator(conf.name).None?
    ensures r.error.Some? ==> r.error.value.name == conf.name
    ensures r.registry.nextSerial >= reg.nextSerial
  {
    if conf.name == "" then Outcome(reg, None)
    else
      match generator(conf.name)
      case None => Outcome(reg, Some(InstantiationError(conf.name)))
      case Some(factory) => AdmitAll(reg, factory(conf), conf.name)
  }

  /** The loop of load over the sections, stopping at the first exception. */
  function LoadConfigs(reg: Registry, configs: seq<Configuration>, generator: Generator): (r: Outcome)
    ensures r.error.Some? ==> exists i :: 0 <= i < |configs| && configs[i].name != "" && r.error.value.name == configs[i].name
    ensures r.registry.nextSerial >= reg.nextSerial
    decreases |configs|
  {
    if configs == [] then Outcome(reg, None)
    else
      var before := LoadConfigs(reg, configs[..|configs| - 1], generator);
      if before.error.Some? then before else LoadConfig(before.registry, configs[|configs| - 1], generator)
  }

  // ---------------------------------------------------------------------------
  // The manager
  // ---------------------------------------------------------------------------

  class StaticModuleManager {
    const generator: Generator
    var modules: seq<Module>
    var idToModule: map<string, Entry>
    var moduleToId: map<Module, ModuleIdentifier>
    var nextSerial: nat
    /** The run queue of the base module manager, filled by add_to_run_queue. */
    var runQueue: seq<Module>

    function State(): Registry
      reads this
    {
      Registry(modules, idToModule, moduleToId, nextSerial)
    }

    constructor (func: Generator)
      ensures generator == func && State() == EmptyRegistry && runQueue == []
    {
      generator := func;
      modules := [];
      idToModule := map[];
      moduleToId := map[];
      nextSerial := 0;
      runQueue := [];
    }

    /** The constructor with its null check: a null generator function throws. */
    static method Create(func: Option<Generator>) returns (r: Result<StaticModuleManager, ManagerError>)
      ensures r.Failure? <==> func.None?
      ensures r.Failure? ==> r.error == NullGenerator
      ensures r.Success? ==>
                fresh(r.value) && r.value.generator == func.value &&
                r.value.State() == EmptyRegistry && r.value.runQueue == []
    {
      if func.None? {
        return Failure(NullGenerator);
      }
      var manager := new StaticModuleManager(func.value);
      return Success(manager);
    }

    /** get_factory: the generator's factory for name, or an InstantiationError when it is null. */
    method GetFactory(name: string) returns (r: Result<Factory, LoadError>)
      ensures r.Failure? <==> generator(name).None?
      ensures r.Failure? ==> r.error == InstantiationError(name)
      ensures r.Success? ==> generator(name) == Some(r.value)
    {
      var factory := generator(name);
      if factory.None? {
        return Failure(InstantiationError(name));
      }
      return Success(factory.value);
    }

    /** The body of the inner loop of load for one created instance. */
    method AdmitInstance(identifier: ModuleIdentifier, confName: string) returns (error: Option<LoadError>)
      modifies this
      ensures Admit(old(State()), identifier, confName) == Outcome(State(), error)
      ensures runQueue == old(runQueue)
    {
      var mod := Module(nextSerial);
      nextSerial := nextSerial + 1;
      if identifier.uniqueName in idToModule {
        var iter := idToModule[identifier.uniqueName];
        if iter.identifier.priority > identifier.priority {
          moduleToId := moduleToId - {iter.mod};
          modules := Erase(modules, iter.mod);
          idToModule := idToModule - {identifier.uniqueName};
        } else {
          if iter.identifier.priority == identifier.priority {
            return Some(AmbiguousInstantiationError(confName));
          }
          return None;
        }
      }
      modules := modules + [mod];
      idToModule := idToModule[identifier.uniqueName := Entry(identifier, mod)];
      moduleToId := moduleToId[mod := identifier];
      return None;
    }

    /** The body of the outer loop of load for one section. */
    method LoadConfiguration(conf: Configuration) returns (error: Option<LoadError>)
      modifies this
      ensures Outcome(State(), error) == LoadConfig(old(State()), conf, generator)
      ensures runQueue == old(runQueue)
    {
      if conf.name == "" {
        return None;
      }
      var factory := GetFactory(conf.name);
      if factory.Failure? {
        return Some(factory.error);
      }
      var modList := factory.value(conf);
      var j := 0;
      while j < |modList|
        invariant j <= |modList|
        invariant AdmitAll(old(State()), modList[..j], conf.name) == Outcome(State(), None)
        invariant runQueue == old(runQueue)
      {
        AdmitAllStep(old(State()), modList, j, conf.name);
        var failure := AdmitInstance(modList[j], conf.name);
        if failure.Some? {
          AdmitAllStops(old(State()), modList, j + 1, conf.name);
          return failure;
        }
        j := j + 1;
      }
      assert modList[..j] == modList;
      return None;
    }

    /**
     * load: the sections in order, the instances of each in order; on
     * success every module of the list joins the run queue in list order.
     */
    method Load(configs: seq<Configuration>) returns (error: Option<LoadError>)
      modifies this
      ensures Outcome(State(), error) == LoadConfigs(old(State()), configs, generator)
      ensures runQueue == if error.None? then old(runQueue) + modules else old(runQueue)
    {
      error := LoadSections(configs);
      if error.None? {
        AddAllToRunQueue();
      }
    }

    /** The loop of load over the sections, stopping at the first exception. */
    method LoadSections(configs: seq<Configuration>) returns (error: Option<LoadError>)
      modifies this
      ensures Outcome(State(), error) == LoadConfigs(old(State()), configs, generator)
      ensures runQueue == old(runQueue)
    {
      var i := 0;
      while i < |configs|
        invariant i <= |configs|
        invariant LoadConfigs(old(State()), configs[..i], generator) == Outcome(State(), None)
        invariant runQueue == old(runQueue)
      {
        LoadConfigsStep(old(State()), configs, i, generator);
        var failure := LoadConfiguration(configs[i]);
        if failure.Some? {
          LoadConfigsStops(old(State()), configs, i + 1, generator);
          return failure;
        }
        i := i + 1;
      }
      assert configs[..i] == configs;
      return None;
    }

    /** The final loop of load: add_to_run_queue for every module, in list order. */
    method AddAllToRunQueue()
      modifies this`runQueue
      ensures runQueue == old(runQueue) + modules
    {
      var k := 0;
      while k < |modules|
        invariant k <= |modules|
        invariant runQueue == old(runQueue) + modules[..k]
      {
        runQueue := runQueue + [modules[k]];
        k := k + 1;
      }
      assert modules[..k] == modules;
    }
  }

  // ---------------------------------------------------------------------------
  // Unfolding the loops one step
  // ---------------------------------------------------------------------------

  lemma AdmitAllStep(reg: Registry, ids: seq<ModuleIdentifier>, j: nat, confName: string)
    requires j < |ids|
    ensures var before := AdmitAll(reg, ids[..j], confName);
            AdmitAll(reg, ids[..j + 1], confName)
            == if before.error.Some? then before else Admit(before.registry, ids[j], confName)
  {
    assert ids[..j + 1][..j] == ids[..j];
  }

  lemma LoadConfigsStep(reg: Registry, configs: seq<Configuration>, i: nat, generator: Generator)
    requires i < |configs|
    ensures var before := LoadConfigs(reg, configs[..i], generator);
            LoadConfigs(reg, configs[..i + 1], generator)
            == if before.error.Some? then before else LoadConfig(before.registry, configs[i], generator)
  {
    assert configs[..i + 1][..i] == configs[..i];
  }

  /** After an exception no further instance is looked at. */
  lemma {:induction false} AdmitAllStops(reg: Registry, ids: seq<ModuleIdentifier>, n: nat, confName: string)
    requires n <= |ids| && AdmitAll(reg, ids[..n], confName).error.Some?
    ensures AdmitAll(reg, ids, confName) == AdmitAll(reg, ids[..n], confName)
    decreases |ids| - n
  {
    if n < |ids| {
      AdmitAllStep(reg, ids, n, confName);
      AdmitAllStops(reg, ids, n + 1, confName);
    } else {
      assert ids[..n] == ids;
    }
  }

  /** After an exception no further section is looked at. */
  lemma {:induction false} LoadConfigsStops(reg: Registry, configs: seq<Configuration>, n: nat, generator: Generator)
    requires n <= |configs| && LoadConfigs(reg, configs[..n], generator).error.Some?
    ensures LoadConfigs(reg, configs, generator) == LoadConfigs(reg, configs[..n], generator)
    decreases |configs| - n
  {
    if n < |configs| {
      LoadConfigsStep(reg, configs, n, generator);
      LoadConfigsStops(reg, configs, n + 1, generator);
    } else {
      assert configs[..n] == configs;
    }
  }

  // ---------------------------------------------------------------------------
  // load keeps the registry consistent
  // ---------------------------------------------------------------------------

  lemma {:induction false} EraseDistinct(s: seq<Module>, x: Module)
    requires Distinct(s)
    ensures Distinct(Erase(s, x))
  {
    if s != [] {
      assert Distinct(s[1..]) by {
        forall i, j | 0 <= i < j < |s[1..]|
          ensures s[1..][i] != s[1..][j]
        {
          assert s[1..][i] == s[i + 1] && s[1..][j] == s[j + 1];
        }
      }
      EraseDistinct(s[1..], x);
      assert s[0] !in s[1..];
      assert s[0] !in Erase(s[1..], x);
    }
  }

  /** In a list that holds x once, at k, erase removes exactly that element and keeps the order of the rest. */
  lemma {:induction false} EraseAt(s: seq<Module>, x: Module, k: nat)
    requires k < |s| && s[k] == x && x !in s[..k] && x !in s[k + 1..]
    ensures Erase(s, x) == s[..k] + s[k + 1..]
    decreases k
  {
    if k == 0 {
      assert s[k + 1..] == s[1..];
    } else {
      var t := s[1..];
      assert s[..k] == [s[0]] + t[..k - 1];
      assert t[k..] == s[k + 1..];
      EraseAt(t, x, k - 1);
    }
  }

  /**
   * In a consistent registry, dropping a name removes its module from
   * modules_ at its position and keeps every other module in order.
   */
  lemma DropKeepsOrder(reg: Registry, k: string)
    requires Valid(reg) && k in reg.idToModule
    ensures exists i :: 0 <= i < |reg.modules| &&
              Drop(reg, k).modules == reg.modules[..i] + reg.modules[i + 1..]
  {
    EraseOnce(reg.modules, reg.idToModule[k].mod);
  }

  /** In a list without duplicates, erasing a listed module removes it at its position. */
  lemma EraseOnce(s: seq<Module>, x: Module)
    requires Distinct(s) && x in s
    ensures exists i :: 0 <= i < |s| && Erase(s, x) == s[..i] + s[i + 1..]
  {
    var i :| 0 <= i < |s| && s[i] == x;
    assert x !in s[..i] by {
      forall j | 0 <= j < i ensures s[..i][j] != x {
        assert s[j] != s[i];
      }
    }
    var tail := s[i + 1..];
    assert x !in tail by {
      forall j | 0 <= j < |tail| ensures tail[j] != x {
        assert tail[j] == s[i + 1 + j];
      }
    }
    EraseAt(s, x, i);
  }

  lemma InsertValid(reg: Registry, id: ModuleIdentifier, m: Module)
    requires Valid(reg) && id.uniqueName !in reg.idToModule
    requires m.serial < reg.nextSerial && m !in reg.modules
    ensures Valid(Insert(reg, id, m))
  {
    var r := Insert(reg, id, m);
    assert forall i :: 0 <= i < |reg.modules| ==> r.modules[i] == reg.modules[i];
    assert r.modules[|reg.modules|] == m;
  }

  lemma DropValid(reg: Registry, k: string)
    requires Valid(reg) && k in reg.idToModule
    ensures Valid(Drop(reg, k)) && k !in Drop(reg, k).idToModule
    ensures Drop(reg, k).nextSerial == reg.nextSerial
  {
    var r := Drop(reg, k);
    EraseDistinct(reg.modules, reg.idToModule[k].mod);
    forall i | 0 <= i < |r.modules|
      ensures r.modules[i].serial < r.nextSerial
    {
      assert r.modules[i] in reg.modules;
    }
  }

  /** Admitting an instance keeps modules_ and the two maps consistent. */
  lemma AdmitValid(reg: Registry, id: ModuleIdentifier, confName: string)
    requires Valid(reg)
    ensures Valid(Admit(reg, id, confName).registry)
  {
    if id.uniqueName !in reg.idToModule {
      AdmitNewValid(reg, id, confName);
    } else if reg.idToModule[id.uniqueName].identifier.priority > id.priority {
      AdmitReplaceValid(reg, id, confName);
    } else {
      CreatedValid(reg);
    }
  }

  lemma AdmitNewValid(reg: Registry, id: ModuleIdentifier, confName: string)
    requires Valid(reg) && id.uniqueName !in reg.idToModule
    ensures Valid(Admit(reg, id, confName).registry)
  {
    CreatedValid(reg);
    InsertValid(reg.(nextSerial := reg.nextSerial + 1), id, Module(reg.nextSerial));
  }

  lemma AdmitReplaceValid(reg: Registry, id: ModuleIdentifier, confName: string)
    requires Valid(reg) && id.uniqueName in reg.idToModule
    requires reg.idToModule[id.uniqueName].identifier.priority > id.priority
    ensures Valid(Admit(reg, id, confName).registry)
  {
    var created := reg.(nextSerial := reg.nextSerial + 1);
    CreatedValid(reg);
    ReplaceValid(created, id, Module(reg.nextSerial));
    assert Admit(reg, id, confName).registry == Insert(Drop(created, id.uniqueName), id, Module(reg.nextSerial));
  }

  /** Taking a serial keeps the registry consistent, and the new module is not yet listed. */
  lemma CreatedValid(reg: Registry)
    requires Valid(reg)
    ensures Valid(reg.(nextSerial := reg.nextSerial + 1))
    ensures Module(reg.nextSerial) !in reg.modules
  {
  }

  /** Replacing the module stored under id's unique name keeps the registry consistent. */
  lemma ReplaceValid(reg: Registry, id: ModuleIdentifier, m: Module)
    requires Valid(reg) && id.uniqueName in reg.idToModule
    requires m.serial < reg.nextSerial && m !in reg.modules
    ensures Valid(Insert(Drop(reg, id.uniqueName), id, m))
  {
    DropValid(reg, id.uniqueName);
    InsertValid(Drop(reg, id.uniqueName), id, m);
  }

  lemma {:induction false} AdmitAllValid(reg: Registry, ids: seq<ModuleIdentifier>, confName: string)
    requires Valid(reg)
    ensures Valid(AdmitAll(reg, ids, confName).registry)
    decreases |ids|
  {
    if ids != [] {
      AdmitAllValid(reg, ids[..|ids| - 1], confName);
      AdmitValid(AdmitAll(reg, ids[..|ids| - 1], confName).registry, ids[|ids| - 1], confName);
    }
  }

  /** Whether it finishes or throws, load leaves a consistent registry. */
  lemma {:induction false} LoadConfigsValid(reg: Registry, configs: seq<Configuration>, generator: Generator)
    requires Valid(reg)
    ensures Valid(LoadConfigs(reg, configs, generator).registry)
    decreases |configs|
  {
    if configs != [] {
      var before := LoadConfigs(reg, configs[..|configs| - 1], generator);
      LoadConfigsValid(reg, configs[..|configs| - 1], generator);
      var conf := configs[|configs| - 1];
      if conf.name != "" && generator(conf.name).Some? {
        AdmitAllValid(before.registry, generator(conf.name).value(conf), conf.name);
      }
    }
  }

  /** A consistent registry holds one module per unique name. */
  lemma UniqueNames(reg: Registry, i: nat, j: nat)
    requires Valid(reg) && i < |reg.modules| && j < |reg.modules|
    requires reg.moduleToId[reg.modules[i]].uniqueName == reg.moduleToId[reg.modules[j]].uniqueName
    ensures i == j
  {
    var k := reg.moduleToId[reg.modules[i]].uniqueName;
    assert reg.modules[i] == reg.idToModule[k].mod == reg.modules[j];
  }

  // ---------------------------------------------------------------------------
  // Priorities: the smallest priority value wins
  // ---------------------------------------------------------------------------

  /**
   * An instance that does not throw leaves every stored name stored, with a
   * priority value no larger than before, and its own name stored with a
   * priority value no larger than its own; an entry changes only to the
   * instance's identifier.
   */
  lemma AdmitMonotone(reg: Registry, id: ModuleIdentifier, confName: string)
    requires Admit(reg, id, confName).error.None?
    ensures var fin := Admit(reg, id, confName).registry;
            (forall k :: k in reg.idToModule ==>
               k in fin.idToModule && fin.idToModule[k].identifier.priority <= reg.idToModule[k].identifier.priority) &&
            id.uniqueName in fin.idToModule && fin.idToModule[id.uniqueName].identifier.priority <= id.priority &&
            (forall k :: k in fin.idToModule ==>
               (k in reg.idToModule && fin.idToModule[k] == reg.idToModule[k]) || fin.idToModule[k].identifier == id)
  {
  }

  /**
   * After a section's instances are admitted without an exception, every
   * unique name seen is stored with the smallest priority value among the
   * stored entry and the instances of that name, and the stored identifier
   * is one of those candidates.
   */
  lemma {:induction false} AdmitAllMinimum(reg: Registry, ids: seq<ModuleIdentifier>, confName: string)
    requires AdmitAll(reg, ids, confName).error.None?
    ensures Minimal(reg, ids, AdmitAll(reg, ids, confName).registry)
    decreases |ids|
  {
    if ids != [] {
      var init := ids[..|ids| - 1];
      var last := ids[|ids| - 1];
      var before := AdmitAll(reg, init, confName);
      var fin := AdmitAll(reg, ids, confName).registry;
      assert before.error.None?;
      AdmitAllMinimum(reg, init, confName);
      AdmitMonotone(before.registry, last, confName);
      assert fin == Admit(before.registry, last, confName).registry;
      assert Monotone(before.registry, last, fin);
      MinimalStep(reg, ids, before.registry, fin);
    }
  }

  /**
   * Every candidate's unique name is stored with a priority value no larger
   * than the candidate's; every name stored in reg stays stored with a value
   * no larger; and every stored entry is reg's own or one of the candidates.
   */
  ghost predicate Minimal(reg: Registry, ids: seq<ModuleIdentifier>, fin: Registry)
  {
    (forall t :: 0 <= t < |ids| ==>
       ids[t].uniqueName in fin.idToModule &&
       fin.idToModule[ids[t].uniqueName].identifier.priority <= ids[t].priority) &&
    (forall k :: k in reg.idToModule ==>
       k in fin.idToModule && fin.idToModule[k].identifier.priority <= reg.idToModule[k].identifier.priority) &&
    (forall k :: k in fin.idToModule ==>
       (k in reg.idToModule && fin.idToModule[k] == reg.idToModule[k]) ||
       exists t :: 0 <= t < |ids| && fin.idToModule[k].identifier == ids[t])
  }

  /** The facts of AdmitMonotone about one admission of id from mid to fin. */
  ghost predicate Monotone(mid: Registry, id: ModuleIdentifier, fin: Registry)
  {
    (forall k :: k in mid.idToModule ==>
       k in fin.idToModule && fin.idToModule[k].identifier.priority <= mid.idToModule[k].identifier.priority) &&
    id.uniqueName in fin.idToModule && fin.idToModule[id.uniqueName].identifier.priority <= id.priority &&
    (forall k :: k in fin.idToModule ==>
       (k in mid.idToModule && fin.idToModule[k] == mid.idToModule[k]) || fin.idToModule[k].identifier == id)
  }

  /** One more admission keeps the minimum facts. */
  lemma MinimalStep(reg: Registry, ids: seq<ModuleIdentifier>, mid: Registry, fin: Registry)
    requires |ids| > 0 && Minimal(reg, ids[..|ids| - 1], mid) && Monotone(mid, ids[|ids| - 1], fin)
    ensures Minimal(reg, ids, fin)
  {
    var init := ids[..|ids| - 1];
    var last := ids[|ids| - 1];
    forall t | 0 <= t < |ids|
      ensures ids[t].uniqueName in fin.idToModule
      ensures fin.idToModule[ids[t].uniqueName].identifier.priority <= ids[t].priority
    {
      if t < |init| {
        assert ids[t] == init[t];
      }
    }
    forall k | k in fin.idToModule
      ensures (k in reg.idToModule && fin.idToModule[k] == reg.idToModule[k]) ||
              exists t :: 0 <= t < |ids| && fin.idToModule[k].identifier == ids[t]
    {
      if fin.idToModule[k].identifier == last {
        assert ids[|ids| - 1] == last;
      } else {
        assert k in mid.idToModule && fin.idToModule[k] == mid.idToModule[k];
        if !(k in reg.idToModule && fin.idToModule[k] == reg.idToModule[k]) {
          var t :| 0 <= t < |init| && mid.idToModule[k].identifier == init[t];
          assert ids[t] == init[t];
        }
      }
    }
  }

  /** The same unique name instantiated twice with the same priority is ambiguous. */
  lemma AdmitTwice(reg: Registry, id: ModuleIdentifier, confName: string)
    requires id.uniqueName !in reg.idToModule
    ensures Admit(reg, id, confName).error.None?
    ensures Admit(Admit(reg, id, confName).registry, id, confName).error == Some(AmbiguousInstantiationError(confName))
  {
  }

  // ---------------------------------------------------------------------------
  // Sections with an empty name
  // ---------------------------------------------------------------------------

  /** The sections with a non-empty name, in order. */
  function Named(configs: seq<Configuration>): (r: seq<Configuration>)
    ensures |r| <= |configs|
    decreases |configs|
  {
    if configs == [] then []
    else Named(configs[..|configs| - 1]) + (if configs[|configs| - 1].name == "" then [] else [configs[|configs| - 1]])
  }

  /** load behaves as if the sections with an empty name were not there. */
  lemma {:induction false} LoadSkipsEmpty(reg: Registry, configs: seq<Configuration>, generator: Generator)
    ensures LoadConfigs(reg, configs, generator) == LoadConfigs(reg, Named(configs), generator)
    decreases |configs|
  {
    if configs != [] {
      var init := configs[..|configs| - 1];
      var last := configs[|configs| - 1];
      LoadSkipsEmpty(reg, init, generator);
      if last.name != "" {
        var named := Named(init) + [last];
        assert Named(configs) == named;
        assert named[..|named| - 1] == Named(init);
        assert named[|named| - 1] == last;
      } else {
        assert Named(configs) == Named(init);
      }
    }
  }
}
