/** `MainCommandsLoader`: the two-phase load of built-in command modules
    (the module named by the root token, falling back to every installed
    module), the extension load that always follows, and `load_arguments`.
    Importing a module or an extension and running its loader is input data:
    a map from name to what that attempt yields. */
module MainLoader {
  import opened PyRuntime
  import opened Dicts
  import opened AzCommands
  import PyStr

  /** The outcome of importing one command module or extension and running
      its command loader: the module does not exist (ModuleNotFoundError), it
      raises some other exception, or it yields a table of commands. */
  datatype Unit = NotFound | Broken | Loaded(commands: map<string, Command>)

  /** What one `_load_commands_from_*` call does: returns the table it merged
      (`None` for a missing unit) or lets the exception through. */
  datatype Attempt = Returned(result: Option<map<string, Command>>) | Raised

  /** An installed extension. `pathFound` is false when `get_extension_path`
      raises for it, which ends the extension phase; `modName` is `None` when
      `get_extension_modname` raises for it, which skips only this extension. */
  datatype ExtensionEntry = ExtensionEntry(name: string, pathFound: bool, modName: Option<string>)

  /** How the module phase ended: the targeted module sufficed, every
      installed module was tried (those that raised are listed), or the
      targeted module raised and the exception escapes the load. */
  datatype ModulesOutcome = TargetedLoad | FullScan(failed: seq<string>) | RootModuleRaised

  /** How the extension phase ended: enumeration of the extensions raised, or
      the extensions were tried in order (those that raised are listed;
      `completed` is false when a path lookup ended the phase early). */
  datatype ExtensionsOutcome = ExtensionsUnavailable | ExtensionsLoaded(failed: seq<string>, completed: bool)

  /** The two maps the load phase updates in place. */
  datatype Tables = Tables(commandTable: map<string, Command>, cmdToModMap: map<string, string>)

  /** A contributing loader's registries after its own `load_arguments`. */
  datatype LoaderRegistry = LoaderRegistry(
    arguments: map<string, map<string, Argument>>,
    extraArguments: map<string, map<string, Argument>>)

  const ResourceGroupNameType := Argument(map["arg_type" := Sym("resource_group_name_type")])
  const DeploymentNameType := Argument(map["arg_type" := Sym("deployment_name_type")])
  const IgnoreType := Argument(map["arg_type" := Sym("ignore_type")])

  // ---------------------------------------------------------------------
  // Specification of one load

  function UnitOf(units: map<string, Unit>, name: string): Unit {
    if name in units then units[name] else NotFound
  }

  /** The commands a unit adds to the table; a missing or broken unit adds none. */
  function Contribution(u: Unit): map<string, Command> {
    if u.Loaded? then u.commands else map[]
  }

  /** `{cmd: module_name for cmd in result}` */
  function Owners(commands: map<string, Command>, moduleName: string): map<string, string> {
    map c | c in commands :: moduleName
  }

  function Tag(cmd: Command, extensionName: string, overridesCommand: bool): Command {
    cmd.(source := ExtensionSource(extensionName, overridesCommand))
  }

  /** Every extension command records the extension and whether a built-in
      module owns a command of that name. */
  function Tagged(commands: map<string, Command>, extensionName: string, cmdToModMap: map<string, string>)
    : (r: map<string, Command>)
    ensures r.Keys == commands.Keys
    ensures forall c :: c in commands ==>
      r[c] == commands[c].(source := ExtensionSource(extensionName, c in cmdToModMap))
  {
    map c | c in commands :: Tag(commands[c], extensionName, c in cmdToModMap)
  }

  /** The tagging loop of `_load_commands_from_extension`: each command of
      the extension records the extension and whether a built-in module owns
      a command of the same name. */
  method TagCommands(result: map<string, Command>, extensionName: string, cmdToModMap: map<string, string>)
    returns (tagged: map<string, Command>)
    ensures tagged == Tagged(result, extensionName, cmdToModMap)
  {
    tagged := result;
    var todo := result.Keys;
    while todo != {}
      invariant todo <= result.Keys
      invariant forall c :: c in tagged <==> c in result
      invariant forall c :: c in result ==>
        tagged[c] == if c in todo then result[c] else Tag(result[c], extensionName, c in cmdToModMap)
      decreases todo
    {
      var c :| c in todo;
      tagged := tagged[c := Tag(result[c], extensionName, c in cmdToModMap)];
      todo := todo - {c};
    }
    ghost var expected := Tagged(result, extensionName, cmdToModMap);
    assert tagged.Keys == expected.Keys;
    assert forall c | c in tagged :: tagged[c] == expected[c];
  }

  /** `_load_commands_from_command_module` on the two maps. */
  function AfterModule(t: Tables, u: Unit, moduleName: string): Tables {
    if u.Loaded?
    then Tables(t.commandTable + u.commands, t.cmdToModMap + Owners(u.commands, moduleName))
    else t
  }

  /** A loaded module's commands go into the table and are recorded as owned
      by the module; every other entry of either map is kept; a missing or
      broken module changes neither map. */
  lemma AfterModuleEffect(t: Tables, u: Unit, moduleName: string)
    ensures var r := AfterModule(t, u, moduleName);
      && (forall c :: c in Contribution(u) ==>
            c in r.commandTable && r.commandTable[c] == u.commands[c] &&
            c in r.cmdToModMap && r.cmdToModMap[c] == moduleName)
      && (forall c :: c !in Contribution(u) ==>
            (c in r.commandTable <==> c in t.commandTable) && (c in r.cmdToModMap <==> c in t.cmdToModMap))
      && (forall c :: c !in Contribution(u) && c in t.commandTable ==> r.commandTable[c] == t.commandTable[c])
      && (forall c :: c !in Contribution(u) && c in t.cmdToModMap ==> r.cmdToModMap[c] == t.cmdToModMap[c])
      && (!u.Loaded? ==> r == t)
  {
  }

  function ModuleAttempt(u: Unit): Attempt {
    match u
    case NotFound => Returned(None)
    case Broken => Raised
    case Loaded(commands) => Returned(Some(commands))
  }

  /** `_load_commands_from_extension` on the two maps. */
  function AfterExtension(t: Tables, u: Unit, extensionName: string): Tables {
    if u.Loaded?
    then Tables(t.commandTable + Tagged(u.commands, extensionName, t.cmdToModMap), t.cmdToModMap)
    else t
  }

  /** The tagged commands go into the table, every other entry is kept, and
      the ownership map is never changed. */
  lemma AfterExtensionEffect(t: Tables, u: Unit, extensionName: string)
    ensures var r := AfterExtension(t, u, extensionName);
      && r.cmdToModMap == t.cmdToModMap
      && (forall c :: c in Contribution(u) ==>
            c in r.commandTable &&
            r.commandTable[c] == u.commands[c].(source := ExtensionSource(extensionName, c in t.cmdToModMap)))
      && (forall c :: c !in Contribution(u) ==> (c in r.commandTable <==> c in t.commandTable))
      && (forall c :: c !in Contribution(u) && c in t.commandTable ==> r.commandTable[c] == t.commandTable[c])
  {
  }

  function ExtensionAttempt(u: Unit, extensionName: string, cmdToModMap: map<string, string>): Attempt {
    match u
    case NotFound => Returned(None)
    case Broken => Raised
    case Loaded(commands) => Returned(Some(Tagged(commands, extensionName, cmdToModMap)))
  }

  /** The fallback scan: every listed module in order; a broken one is
      skipped and the scan goes on. */
  function ScanModules(t: Tables, units: map<string, Unit>, names: seq<string>): Tables
    decreases |names|
  {
    if names == [] then t
    else ScanModules(AfterModule(t, UnitOf(units, names[0]), names[0]), units, names[1..])
  }

  /** The listed modules whose load raised, in order. */
  function BrokenAmong(units: map<string, Unit>, names: seq<string>): seq<string>
    decreases |names|
  {
    if names == [] then []
    else (if UnitOf(units, names[0]).Broken? then [names[0]] else []) + BrokenAmong(units, names[1..])
  }

  /** The installed modules outside the blacklist, in discovery order; none
      when the modules namespace cannot be imported. */
  function InstalledModules(installed: Option<seq<string>>, blacklist: set<string>): seq<string> {
    if installed.None? then [] else OutsideBlacklist(installed.value, blacklist)
  }

  function OutsideBlacklist(names: seq<string>, blacklist: set<string>): (r: seq<string>)
    ensures forall i :: 0 <= i < |r| ==> r[i] !in blacklist && r[i] in names
    ensures forall m :: m in names && m !in blacklist ==> m in r
    decreases |names|
  {
    if names == [] then []
    else (if names[0] in blacklist then [] else [names[0]]) + OutsideBlacklist(names[1..], blacklist)
  }

  /** `OutsideBlacklist` is the order-preserving filter: it distributes over
      concatenation and keeps a single name exactly when it is not
      blacklisted, so the scan visits the kept modules in discovery order and
      with their multiplicity. */
  lemma {:induction false} OutsideBlacklistAppend(a: seq<string>, b: seq<string>, blacklist: set<string>)
    ensures OutsideBlacklist(a + b, blacklist) == OutsideBlacklist(a, blacklist) + OutsideBlacklist(b, blacklist)
    decreases |a|
  {
    if a == [] {
      assert a + b == b;
    } else {
      assert (a + b)[0] == a[0];
      assert (a + b)[1..] == a[1..] + b;
      OutsideBlacklistAppend(a[1..], b, blacklist);
      var h := if a[0] in blacklist then [] else [a[0]];
      PyStr.AppendAssoc(h, OutsideBlacklist(a[1..], blacklist), OutsideBlacklist(b, blacklist));
    }
  }

  lemma OutsideBlacklistSingle(m: string, blacklist: set<string>)
    ensures OutsideBlacklist([], blacklist) == []
    ensures OutsideBlacklist([m], blacklist) == if m in blacklist then [] else [m]
  {
    assert [m][1..] == [];
  }


  /** `args[0] if args else None`; an empty token is as falsy as `None`. */
  function RootCommand(args: seq<string>): string {
    if args == [] then "" else args[0]
  }

  /** `_update_command_table_from_modules`. */
  function ModulesPhase(t: Tables, args: seq<string>, blacklist: set<string>, installed: Option<seq<string>>,
                        units: map<string, Unit>): (ModulesOutcome, Tables)
  {
    var root := RootCommand(args);
    var mods := InstalledModules(installed, blacklist);
    if root != "" && root !in blacklist then
      var u := UnitOf(units, root);
      if u.Broken? then (RootModuleRaised, t)
      else
        var t1 := AfterModule(t, u, root);
        if |t1.commandTable| > 0 then (TargetedLoad, t1)
        else (FullScan(BrokenAmong(units, mods)), ScanModules(t1, units, mods))
    else (FullScan(BrokenAmong(units, mods)), ScanModules(t, units, mods))
  }

  /** One extension: a failing `get_extension_modname` or a broken
      extension is skipped. */
  function AfterExtensionEntry(t: Tables, e: ExtensionEntry, extUnits: map<string, Unit>): Tables {
    if e.modName.None? then t else AfterExtension(t, UnitOf(extUnits, e.modName.value), e.modName.value)
  }

  /** The extension loop, which stops at the first extension whose path
      lookup raises. */
  function ScanExtensions(t: Tables, exts: seq<ExtensionEntry>, extUnits: map<string, Unit>): Tables
    decreases |exts|
  {
    if exts == [] || !exts[0].pathFound then t
    else ScanExtensions(AfterExtensionEntry(t, exts[0], extUnits), exts[1..], extUnits)
  }

  predicate ExtensionFails(e: ExtensionEntry, extUnits: map<string, Unit>) {
    e.modName.None? || UnitOf(extUnits, e.modName.value).Broken?
  }

  function FailedExtensions(exts: seq<ExtensionEntry>, extUnits: map<string, Unit>): seq<string>
    decreases |exts|
  {
    if exts == [] || !exts[0].pathFound then []
    else (if ExtensionFails(exts[0], extUnits) then [exts[0].name] else []) + FailedExtensions(exts[1..], extUnits)
  }

  /** An extension whose path lookup raises ends the loop: it and every
      later extension are neither loaded nor reported. */
  lemma ExtensionPhaseStops(t: Tables, exts: seq<ExtensionEntry>, extUnits: map<string, Unit>)
    requires exts != [] && !exts[0].pathFound
    ensures ScanExtensions(t, exts, extUnits) == t && FailedExtensions(exts, extUnits) == []
  {
  }

  /** One extension whose path lookup succeeds is loaded, then the loop
      goes on with the rest. */
  lemma ExtensionStep(t: Tables, exts: seq<ExtensionEntry>, i: nat, extUnits: map<string, Unit>)
    requires i < |exts| && exts[i].pathFound
    ensures ScanExtensions(t, exts[i..], extUnits)
         == ScanExtensions(AfterExtensionEntry(t, exts[i], extUnits), exts[i + 1..], extUnits)
    ensures FailedExtensions(exts[i..], extUnits)
         == (if ExtensionFails(exts[i], extUnits) then [exts[i].name] else []) + FailedExtensions(exts[i + 1..], extUnits)
  {
    assert exts[i..][1..] == exts[i + 1..];
  }

  predicate AllPathsFound(exts: seq<ExtensionEntry>) {
    forall e :: e in exts ==> e.pathFound
  }

  /** `_update_command_table_from_extensions`. */
  function ExtensionsPhase(t: Tables, extensions: Option<seq<ExtensionEntry>>, extUnits: map<string, Unit>)
    : (ExtensionsOutcome, Tables)
  {
    if extensions.None? then (ExtensionsUnavailable, t)
    else
      var exts := extensions.value;
      (ExtensionsLoaded(FailedExtensions(exts, extUnits), AllPathsFound(exts)),
       ScanExtensions(t, exts, extUnits))
  }

  /** `load_command_table`: the module phase, then the extension phase; the
      result is `None` when the targeted module's exception escapes. */
  function LoadTable(t: Tables, args: seq<string>, blacklist: set<string>, installed: Option<seq<string>>,
                     units: map<string, Unit>, extensions: Option<seq<ExtensionEntry>>, extUnits: map<string, Unit>)
    : (Option<map<string, Command>>, Tables)
  {
    var (m, t1) := ModulesPhase(t, args, blacklist, installed, units);
    if m.RootModuleRaised? then (None, t1)
    else
      var t2 := ExtensionsPhase(t1, extensions, extUnits).1;
      (Some(t2.commandTable), t2)
  }

  /** The four argument types `load_arguments` registers under scope `''`. */
  function GlobalArguments(locationType: Argument): map<string, Argument> {
    map["resource_group_name" := ResourceGroupNameType, "location" := locationType,
        "deployment_name" := DeploymentNameType, "cmd" := IgnoreType]
  }

  /** Registering the four fixed arguments under scope `''`, after (and so
      over) whatever the loaders put there. */
  function WithGlobalArguments(args: map<string, map<string, Argument>>, locationType: Argument)
    : map<string, map<string, Argument>>
  {
    args["" := (if "" in args then args[""] else map[]) + GlobalArguments(locationType)]
  }

  /** Registering the fixed arguments adds scope `''` and keeps every other
      scope. */
  lemma GlobalArgumentsKeepScopes(args: map<string, map<string, Argument>>, locationType: Argument)
    ensures WithGlobalArguments(args, locationType).Keys == args.Keys + {""}
    ensures forall s :: s in args && s != "" ==> WithGlobalArguments(args, locationType)[s] == args[s]
  {
  }

  /** Scope `''` holds the four fixed arguments with their types, over
      whatever was registered there, and keeps its other arguments. */
  lemma GlobalArgumentsInScope(args: map<string, map<string, Argument>>, locationType: Argument)
    ensures var g := WithGlobalArguments(args, locationType)[""];
      && g.Keys == (if "" in args then args[""].Keys else {}) + {"resource_group_name", "location", "deployment_name", "cmd"}
      && g["resource_group_name"] == ResourceGroupNameType && g["location"] == locationType
      && g["deployment_name"] == DeploymentNameType && g["cmd"] == IgnoreType
      && (forall d :: "" in args && d in args[""] && d !in GlobalArguments(locationType) ==> g[d] == args[""][d])
  {
    var before: map<string, Argument> := if "" in args then args[""] else map[];
    var fixed := GlobalArguments(locationType);
    assert fixed.Keys == {"resource_group_name", "location", "deployment_name", "cmd"};
    assert WithGlobalArguments(args, locationType)[""] == before + fixed;
    assert (before + fixed).Keys == before.Keys + fixed.Keys;
  }

  function ArgumentMaps(loaders: seq<LoaderRegistry>): (r: seq<map<string, map<string, Argument>>>)
    ensures |r| == |loaders| && forall i :: 0 <= i < |loaders| ==> r[i] == loaders[i].arguments
    decreases |loaders|
  {
    if loaders == [] then [] else [loaders[0].arguments] + ArgumentMaps(loaders[1..])
  }

  function ExtraArgumentMaps(loaders: seq<LoaderRegistry>): (r: seq<map<string, map<string, Argument>>>)
    ensures |r| == |loaders| && forall i :: 0 <= i < |loaders| ==> r[i] == loaders[i].extraArguments
    decreases |loaders|
  {
    if loaders == [] then [] else [loaders[0].extraArguments] + ExtraArgumentMaps(loaders[1..])
  }

  // ---------------------------------------------------------------------
  // The loader object

  class MainCommandsLoader {
    var commandTable: map<string, Command>
    var cmdToModMap: map<string, string>
    /** `argument_registry.arguments`: scope -> argument name -> type. */
    var arguments: map<string, map<string, Argument>>
    /** `extra_argument_registry`: command name -> argument name -> definition. */
    var extraArguments: map<string, map<string, Argument>>
    /** The commands for which the base `load_arguments` was invoked, in order. */
    var argumentLoads: seq<string>

    function State(): Tables
      reads this`commandTable, this`cmdToModMap
    {
      Tables(commandTable, cmdToModMap)
    }

    constructor ()
      ensures commandTable == map[] && cmdToModMap == map[]
      ensures arguments == map[] && extraArguments == map[] && argumentLoads == []
    {
      commandTable := map[];
      cmdToModMap := map[];
      arguments := map[];
      extraArguments := map[];
      argumentLoads := [];
    }

    method LoadCommandsFromCommandModule(units: map<string, Unit>, moduleName: string) returns (a: Attempt)
      modifies this`commandTable, this`cmdToModMap
      ensures a == ModuleAttempt(UnitOf(units, moduleName))
      ensures State() == AfterModule(old(State()), UnitOf(units, moduleName), moduleName)
    {
      match UnitOf(units, moduleName)
      case NotFound =>
        a := Returned(None);
      case Broken =>
        a := Raised;
      case Loaded(result) =>
        commandTable := commandTable + result;
        cmdToModMap := cmdToModMap + map c | c in result :: moduleName;
        a := Returned(Some(result));
    }

    method LoadCommandsFromExtension(extUnits: map<string, Unit>, extensionName: string) returns (a: Attempt)
      modifies this`commandTable
      ensures a == ExtensionAttempt(UnitOf(extUnits, extensionName), extensionName, cmdToModMap)
      ensures State() == AfterExtension(old(State()), UnitOf(extUnits, extensionName), extensionName)
    {
      match UnitOf(extUnits, extensionName)
      case NotFound =>
        a := Returned(None);
      case Broken =>
        a := Raised;
      case Loaded(result) =>
        var tagged := TagCommands(result, extensionName, cmdToModMap);
        commandTable := commandTable + tagged;
        a := Returned(Some(tagged));
    }

    method UpdateCommandTableFromModules(args: seq<string>, blacklist: set<string>,
                                         installed: Option<seq<string>>, units: map<string, Unit>)
      returns (outcome: ModulesOutcome)
      modifies this`commandTable, this`cmdToModMap
      ensures (outcome, State()) == ModulesPhase(old(State()), args, blacklist, installed, units)
    {
      var root := RootCommand(args);
      if root != "" && root !in blacklist {
        var a := LoadCommandsFromCommandModule(units, root);
        if a.Raised? {
          return RootModuleRaised;
        }
        if |commandTable| > 0 {
          return TargetedLoad;
        }
      }
      var failed := LoadInstalledModules(InstalledModules(installed, blacklist), units);
      return FullScan(failed);
    }

    /** The fallback loop: every listed module in order, a module that
        raises being reported and skipped. */
    method LoadInstalledModules(mods: seq<string>, units: map<string, Unit>) returns (failed: seq<string>)
      modifies this`commandTable, this`cmdToModMap
      ensures failed == BrokenAmong(units, mods)
      ensures State() == ScanModules(old(State()), units, mods)
    {
      failed := [];
      var i := 0;
      while i < |mods|
        invariant 0 <= i <= |mods|
        invariant ScanModules(State(), units, mods[i..]) == ScanModules(old(State()), units, mods)
        invariant failed + BrokenAmong(units, mods[i..]) == BrokenAmong(units, mods)
      {
        var a := LoadCommandsFromCommandModule(units, mods[i]);
        if a.Raised? {
          failed := failed + [mods[i]];
        }
        assert mods[i..][1..] == mods[i + 1..];
        i := i + 1;
      }
      assert mods[i..] == [];
      assert failed + [] == failed;
    }

    /** The inner `try` of the extension loop: the module name lookup and
        the load; `loaded` is false when either raised. */
    method LoadExtensionEntry(e: ExtensionEntry, extUnits: map<string, Unit>) returns (loaded: bool)
      modifies this`commandTable
      ensures loaded == !ExtensionFails(e, extUnits)
      ensures State() == AfterExtensionEntry(old(State()), e, extUnits)
    {
      if e.modName.None? {
        return false;
      }
      var a := LoadCommandsFromExtension(extUnits, e.modName.value);
      return !a.Raised?;
    }

    /** One round of the extension loop for an extension whose path lookup
        succeeds. */
    method LoadExtensionAt(exts: seq<ExtensionEntry>, i: nat, extUnits: map<string, Unit>, failed: seq<string>)
      returns (failed': seq<string>)
      requires i < |exts| && exts[i].pathFound
      modifies this`commandTable
      ensures ScanExtensions(State(), exts[i + 1..], extUnits) == ScanExtensions(old(State()), exts[i..], extUnits)
      ensures failed' + FailedExtensions(exts[i + 1..], extUnits) == failed + FailedExtensions(exts[i..], extUnits)
    {
      ExtensionStep(State(), exts, i, extUnits);
      var loaded := LoadExtensionEntry(exts[i], extUnits);
      ghost var rest := FailedExtensions(exts[i + 1..], extUnits);
      if !loaded {
        assert failed + ([exts[i].name] + rest) == (failed + [exts[i].name]) + rest;
        failed' := failed + [exts[i].name];
      } else {
        assert [] + rest == rest;
        failed' := failed;
      }
    }

    /** The loop over the installed extensions. */
    method LoadExtensionsInOrder(exts: seq<ExtensionEntry>, extUnits: map<string, Unit>)
      returns (failed: seq<string>, completed: bool)
      modifies this`commandTable
      ensures failed == FailedExtensions(exts, extUnits) && completed == AllPathsFound(exts)
      ensures State() == ScanExtensions(old(State()), exts, extUnits)
    {
      failed := [];
      var i := 0;
      while i < |exts|
        invariant 0 <= i <= |exts|
        invariant ScanExtensions(State(), exts[i..], extUnits) == ScanExtensions(old(State()), exts, extUnits)
        invariant failed + FailedExtensions(exts[i..], extUnits) == FailedExtensions(exts, extUnits)
        invariant forall j :: 0 <= j < i ==> exts[j].pathFound
      {
        var e := exts[i];
        if !e.pathFound {
          ExtensionPhaseStops(State(), exts[i..], extUnits);
          assert failed + [] == failed;
          assert !AllPathsFound(exts) by { assert exts[i] in exts; }
          return failed, false;
        }
        failed := LoadExtensionAt(exts, i, extUnits, failed);
        i := i + 1;
      }
      assert exts[i..] == [];
      assert failed + [] == failed;
      assert AllPathsFound(exts) by {
        forall e | e in exts ensures e.pathFound {
          var j :| 0 <= j < |exts| && exts[j] == e;
        }
      }
      completed := true;
    }

    method UpdateCommandTableFromExtensions(extensions: Option<seq<ExtensionEntry>>, extUnits: map<string, Unit>)
      returns (outcome: ExtensionsOutcome)
      modifies this`commandTable
      ensures (outcome, State()) == ExtensionsPhase(old(State()), extensions, extUnits)
    {
      if extensions.None? {
        return ExtensionsUnavailable;
      }
      var failed, completed := LoadExtensionsInOrder(extensions.value, extUnits);
      return ExtensionsLoaded(failed, completed);
    }

    method LoadCommandTable(args: seq<string>, blacklist: set<string>, installed: Option<seq<string>>,
                            units: map<string, Unit>, extensions: Option<seq<ExtensionEntry>>,
                            extUnits: map<string, Unit>)
      returns (table: Option<map<string, Command>>)
      modifies this`commandTable, this`cmdToModMap
      ensures (table, State()) == LoadTable(old(State()), args, blacklist, installed, units, extensions, extUnits)
    {
      var m := UpdateCommandTableFromModules(args, blacklist, installed, units);
      if m.RootModuleRaised? {
        return None;
      }
      var e := UpdateCommandTableFromExtensions(extensions, extUnits);
      return Some(commandTable);
    }

    method LoadArguments(command: string, cmdToLoaderMap: map<string, seq<LoaderRegistry>>, locationType: Argument)
      modifies this`arguments, this`extraArguments, this`argumentLoads
      ensures command in cmdToLoaderMap && |cmdToLoaderMap[command]| > 0 ==>
        && arguments == WithGlobalArguments(
             UpdateAll(old(arguments), ArgumentMaps(cmdToLoaderMap[command])), locationType)
        && extraArguments == UpdateAll(old(extraArguments), ExtraArgumentMaps(cmdToLoaderMap[command]))
        && argumentLoads == old(argumentLoads) + [command]
      ensures !(command in cmdToLoaderMap && |cmdToLoaderMap[command]| > 0) ==>
        arguments == old(arguments) && extraArguments == old(extraArguments) && argumentLoads == old(argumentLoads)
    {
      var loaders := if command in cmdToLoaderMap then cmdToLoaderMap[command] else [];
      if |loaders| > 0 {
        MergeRegistries(loaders);
        arguments := WithGlobalArguments(arguments, locationType);
        argumentLoads := argumentLoads + [command];
      }
    }

    /** The loop of `load_arguments`: each contributing loader's registries
        are merged in order. */
    method MergeRegistries(loaders: seq<LoaderRegistry>)
      modifies this`arguments, this`extraArguments
      ensures arguments == UpdateAll(old(arguments), ArgumentMaps(loaders))
      ensures extraArguments == UpdateAll(old(extraArguments), ExtraArgumentMaps(loaders))
    {
      var i := 0;
      while i < |loaders|
        invariant 0 <= i <= |loaders|
        invariant UpdateAll(arguments, ArgumentMaps(loaders[i..])) == UpdateAll(old(arguments), ArgumentMaps(loaders))
        invariant UpdateAll(extraArguments, ExtraArgumentMaps(loaders[i..]))
               == UpdateAll(old(extraArguments), ExtraArgumentMaps(loaders))
      {
        assert loaders[i..][1..] == loaders[i + 1..];
        arguments := arguments + loaders[i].arguments;
        extraArguments := extraArguments + loaders[i].extraArguments;
        i := i + 1;
      }
      assert loaders[i..] == [];
    }
  }

  // ---------------------------------------------------------------------
  // Properties of the module phase

  lemma {:induction false} ScanModulesAppend(t: Tables, units: map<string, Unit>, a: seq<string>, b: seq<string>)
    ensures ScanModules(t, units, a + b) == ScanModules(ScanModules(t, units, a), units, b)
    decreases |a|
  {
    if a != [] {
      var t1 := AfterModule(t, UnitOf(units, a[0]), a[0]);
      assert (a + b)[0] == a[0] && (a + b)[1..] == a[1..] + b;
      assert ScanModules(t, units, a + b) == ScanModules(t1, units, a[1..] + b);
      ScanModulesAppend(t1, units, a[1..], b);
    } else {
      assert a + b == b;
    }
  }

  /** Failure isolation: a module whose load raises changes nothing, so the
      scan of the other modules is the same with or without it. */
  lemma BrokenModuleIsolated(t: Tables, units: map<string, Unit>, a: seq<string>, m: string, b: seq<string>)
    requires UnitOf(units, m).Broken?
    ensures ScanModules(t, units, a + [m] + b) == ScanModules(t, units, a + b)
  {
    ScanModulesAppend(t, units, a + [m], b);
    ScanModulesAppend(t, units, a, [m]);
    ScanModulesAppend(t, units, a, b);
    assert ScanModules(ScanModules(t, units, a), units, [m]) == ScanModules(t, units, a) by {
      assert [m][1..] == [];
    }
  }

  /** A command that no scanned module provides keeps its entry and its owner. */
  lemma {:induction false} ScanLeavesOthers(t: Tables, units: map<string, Unit>, names: seq<string>, k: string)
    requires forall j :: 0 <= j < |names| ==> k !in Contribution(UnitOf(units, names[j]))
    ensures (k in ScanModules(t, units, names).commandTable <==> k in t.commandTable)
    ensures k in t.commandTable ==> ScanModules(t, units, names).commandTable[k] == t.commandTable[k]
    ensures (k in ScanModules(t, units, names).cmdToModMap <==> k in t.cmdToModMap)
    ensures k in t.cmdToModMap ==> ScanModules(t, units, names).cmdToModMap[k] == t.cmdToModMap[k]
    decreases |names|
  {
    if names != [] {
      assert k !in Contribution(UnitOf(units, names[0]));
      forall j | 0 <= j < |names[1..]| ensures k !in Contribution(UnitOf(units, names[1..][j])) {
        assert names[1..][j] == names[j + 1];
      }
      AfterModuleEffect(t, UnitOf(units, names[0]), names[0]);
      ScanLeavesOthers(AfterModule(t, UnitOf(units, names[0]), names[0]), units, names[1..], k);
    }
  }

  /** The last scanned module that provides a command decides its entry, and
      that module is recorded as its owner. */
  lemma {:induction false} ScanLastProviderWins(t: Tables, units: map<string, Unit>, names: seq<string>, i: nat, k: string)
    requires i < |names| && k in Contribution(UnitOf(units, names[i]))
    requires forall j :: i < j < |names| ==> k !in Contribution(UnitOf(units, names[j]))
    ensures k in ScanModules(t, units, names).commandTable
    ensures ScanModules(t, units, names).commandTable[k] == Contribution(UnitOf(units, names[i]))[k]
    ensures k in ScanModules(t, units, names).cmdToModMap && ScanModules(t, units, names).cmdToModMap[k] == names[i]
    decreases |names|
  {
    var t1 := AfterModule(t, UnitOf(units, names[0]), names[0]);
    AfterModuleEffect(t, UnitOf(units, names[0]), names[0]);
    forall j | 0 <= j < |names[1..]| && (i == 0 || i - 1 < j)
      ensures k !in Contribution(UnitOf(units, names[1..][j]))
    {
      assert names[1..][j] == names[j + 1];
    }
    if i == 0 {
      ScanLeavesOthers(t1, units, names[1..], k);
    } else {
      assert names[1..][i - 1] == names[i];
      ScanLastProviderWins(t1, units, names[1..], i - 1, k);
    }
  }

  /** The scan reports exactly the listed modules whose load raised. */
  lemma {:induction false} BrokenModulesReported(units: map<string, Unit>, names: seq<string>, m: string)
    ensures m in BrokenAmong(units, names) <==> m in names && UnitOf(units, m).Broken?
    decreases |names|
  {
    if names != [] {
      assert names == [names[0]] + names[1..];
      BrokenModulesReported(units, names[1..], m);
    }
  }

  /** The extension phase reports exactly the extensions it reached (every
      path lookup up to and including theirs succeeded) whose module-name
      lookup or load raised. */
  lemma ExtensionsReported(exts: seq<ExtensionEntry>, extUnits: map<string, Unit>, n: string)
    ensures n in FailedExtensions(exts, extUnits) <==>
      exists i :: 0 <= i < |exts| && AllPathsFound(exts[..i + 1]) && ExtensionFails(exts[i], extUnits) && exts[i].name == n
  {
    if n in FailedExtensions(exts, extUnits) {
      ReportedHasWitness(exts, extUnits, n);
    }
    forall i | 0 <= i < |exts| && AllPathsFound(exts[..i + 1]) && ExtensionFails(exts[i], extUnits) && exts[i].name == n
      ensures n in FailedExtensions(exts, extUnits)
    {
      WitnessReported(exts, extUnits, n, i);
    }
  }

  lemma {:induction false} ReportedHasWitness(exts: seq<ExtensionEntry>, extUnits: map<string, Unit>, n: string)
    requires n in FailedExtensions(exts, extUnits)
    ensures exists i :: 0 <= i < |exts| && AllPathsFound(exts[..i + 1]) && ExtensionFails(exts[i], extUnits) && exts[i].name == n
    decreases |exts|
  {
    var tail := exts[1..];
    var head := if ExtensionFails(exts[0], extUnits) then [exts[0].name] else [];
    assert FailedExtensions(exts, extUnits) == head + FailedExtensions(tail, extUnits);
    assert exts[0].pathFound;
    if n in head {
      assert exts[..1] == [exts[0]];
      assert AllPathsFound(exts[..0 + 1]) && ExtensionFails(exts[0], extUnits) && exts[0].name == n;
    } else {
      ReportedHasWitness(tail, extUnits, n);
      var j :| 0 <= j < |tail| && AllPathsFound(tail[..j + 1]) && ExtensionFails(tail[j], extUnits) && tail[j].name == n;
      var k := j + 1;
      assert AllPathsFound(exts[..k + 1]) by {
        forall e | e in exts[..k + 1] ensures e.pathFound {
          var p :| 0 <= p < k + 1 && exts[..k + 1][p] == e;
          if p > 0 {
            assert e == tail[..j + 1][p - 1];
          }
        }
      }
      assert exts[k] == tail[j];
      assert 0 <= k < |exts| && AllPathsFound(exts[..k + 1]) && ExtensionFails(exts[k], extUnits) && exts[k].name == n;
    }
  }

  lemma {:induction false} WitnessReported(exts: seq<ExtensionEntry>, extUnits: map<string, Unit>, n: string, i: nat)
    requires i < |exts| && AllPathsFound(exts[..i + 1]) && ExtensionFails(exts[i], extUnits) && exts[i].name == n
    ensures n in FailedExtensions(exts, extUnits)
    decreases i
  {
    assert exts[0] in exts[..i + 1];
    var tail := exts[1..];
    var head := if ExtensionFails(exts[0], extUnits) then [exts[0].name] else [];
    assert FailedExtensions(exts, extUnits) == head + FailedExtensions(tail, extUnits);
    if i > 0 {
      assert tail[..i] == exts[1..i + 1];
      assert AllPathsFound(tail[..i]) by {
        forall e | e in tail[..i] ensures e.pathFound {
          assert e in exts[..i + 1];
        }
      }
      assert tail[i - 1] == exts[i];
      WitnessReported(tail, extUnits, n, i - 1);
    }
  }

  /** A targeted load that leaves the table non-empty ends the module phase:
      which modules are installed does not matter. */
  lemma TargetedLoadSkipsScan(t: Tables, args: seq<string>, blacklist: set<string>,
                              installed: Option<seq<string>>, otherInstalled: Option<seq<string>>,
                              units: map<string, Unit>)
    requires RootCommand(args) != "" && RootCommand(args) !in blacklist
    requires !UnitOf(units, RootCommand(args)).Broken?
    requires |AfterModule(t, UnitOf(units, RootCommand(args)), RootCommand(args)).commandTable| > 0
    ensures ModulesPhase(t, args, blacklist, installed, units)
         == (TargetedLoad, AfterModule(t, UnitOf(units, RootCommand(args)), RootCommand(args)))
    ensures ModulesPhase(t, args, blacklist, installed, units)
         == ModulesPhase(t, args, blacklist, otherInstalled, units)
  {
  }

  /** With no root token, or a blacklisted one, every installed module outside
      the blacklist is scanned from the unchanged tables, so the blacklisted
      root's own module is never loaded. */
  lemma BlacklistedRootScansAll(t: Tables, args: seq<string>, blacklist: set<string>,
                               installed: Option<seq<string>>, units: map<string, Unit>)
    requires RootCommand(args) == "" || RootCommand(args) in blacklist
    ensures ModulesPhase(t, args, blacklist, installed, units)
         == (FullScan(BrokenAmong(units, InstalledModules(installed, blacklist))),
             ScanModules(t, units, InstalledModules(installed, blacklist)))
    ensures RootCommand(args) != "" ==> RootCommand(args) !in InstalledModules(installed, blacklist)
  {
  }

  /** A targeted module raising anything but "not found" escapes the load:
      no module is scanned and no extension is loaded. */
  lemma RootModuleFailureAborts(t: Tables, args: seq<string>, blacklist: set<string>, installed: Option<seq<string>>,
                                units: map<string, Unit>, extensions: Option<seq<ExtensionEntry>>,
                                extUnits: map<string, Unit>)
    requires RootCommand(args) != "" && RootCommand(args) !in blacklist
    requires UnitOf(units, RootCommand(args)).Broken?
    ensures LoadTable(t, args, blacklist, installed, units, extensions, extUnits) == (None, t)
  {
  }

  // ---------------------------------------------------------------------
  // Properties of the extension phase

  /** The commands one extension entry adds. */
  function ExtContribution(e: ExtensionEntry, extUnits: map<string, Unit>): (r: map<string, Command>)
    ensures r != map[] ==> e.modName.Some?
  {
    if e.modName.None? then map[] else Contribution(UnitOf(extUnits, e.modName.value))
  }

  /** One extension entry: its commands go in tagged, the rest is kept. */
  lemma AfterExtensionEntryEffect(t: Tables, e: ExtensionEntry, extUnits: map<string, Unit>)
    ensures var r := AfterExtensionEntry(t, e, extUnits);
      && r.cmdToModMap == t.cmdToModMap
      && (forall c :: c in ExtContribution(e, extUnits) ==>
            c in r.commandTable &&
            r.commandTable[c] == ExtContribution(e, extUnits)[c].(source := ExtensionSource(e.modName.value, c in t.cmdToModMap)))
      && (forall c :: c !in ExtContribution(e, extUnits) ==> (c in r.commandTable <==> c in t.commandTable))
      && (forall c :: c !in ExtContribution(e, extUnits) && c in t.commandTable ==> r.commandTable[c] == t.commandTable[c])
  {
    if e.modName.Some? {
      AfterExtensionEffect(t, UnitOf(extUnits, e.modName.value), e.modName.value);
    }
  }

  /** Extensions never record ownership. */
  lemma {:induction false} ExtensionsKeepOwners(t: Tables, exts: seq<ExtensionEntry>, extUnits: map<string, Unit>)
    ensures ScanExtensions(t, exts, extUnits).cmdToModMap == t.cmdToModMap
    decreases |exts|
  {
    if exts != [] && exts[0].pathFound {
      AfterExtensionEntryEffect(t, exts[0], extUnits);
      ExtensionsKeepOwners(AfterExtensionEntry(t, exts[0], extUnits), exts[1..], extUnits);
    }
  }

  lemma {:induction false} ExtensionsLeaveOthers(t: Tables, exts: seq<ExtensionEntry>, extUnits: map<string, Unit>, k: string)
    requires forall j :: 0 <= j < |exts| ==> k !in ExtContribution(exts[j], extUnits)
    ensures (k in ScanExtensions(t, exts, extUnits).commandTable <==> k in t.commandTable)
    ensures k in t.commandTable ==> ScanExtensions(t, exts, extUnits).commandTable[k] == t.commandTable[k]
    decreases |exts|
  {
    if exts != [] && exts[0].pathFound {
      assert k !in ExtContribution(exts[0], extUnits);
      forall j | 0 <= j < |exts[1..]| ensures k !in ExtContribution(exts[1..][j], extUnits) {
        assert exts[1..][j] == exts[j + 1];
      }
      AfterExtensionEntryEffect(t, exts[0], extUnits);
      ExtensionsLeaveOthers(AfterExtensionEntry(t, exts[0], extUnits), exts[1..], extUnits, k);
    }
  }

  /** The last extension reached that provides a command decides its entry;
      the entry is tagged with that extension's module name and with whether
      a built-in module owned the command before the extension phase. */
  lemma {:induction false} ExtensionLastProviderWins(t: Tables, exts: seq<ExtensionEntry>, extUnits: map<string, Unit>,
                                                     i: nat, k: string)
    requires i < |exts| && AllPathsFound(exts[..i + 1]) && k in ExtContribution(exts[i], extUnits)
    requires forall j :: i < j < |exts| ==> k !in ExtContribution(exts[j], extUnits)
    ensures k in ScanExtensions(t, exts, extUnits).commandTable
    ensures ScanExtensions(t, exts, extUnits).commandTable[k]
         == ExtContribution(exts[i], extUnits)[k].(source := ExtensionSource(exts[i].modName.value, k in t.cmdToModMap))
    decreases |exts|
  {
    assert exts[0] in exts[..i + 1];
    var t1 := AfterExtensionEntry(t, exts[0], extUnits);
    AfterExtensionEntryEffect(t, exts[0], extUnits);
    forall j | 0 <= j < |exts[1..]| && (i == 0 || i - 1 < j)
      ensures k !in ExtContribution(exts[1..][j], extUnits)
    {
      assert exts[1..][j] == exts[j + 1];
    }
    if i == 0 {
      ExtensionsLeaveOthers(t1, exts[1..], extUnits, k);
    } else {
      assert exts[1..][i - 1] == exts[i];
      assert exts[1..][..i] == exts[1..i + 1];
      assert AllPathsFound(exts[1..][..i]) by {
        forall e | e in exts[1..][..i] ensures e.pathFound {
          assert e in exts[..i + 1];
        }
      }
      ExtensionLastProviderWins(t1, exts[1..], extUnits, i - 1, k);
    }
  }

  /** Extensions load after the modules, so their entries win over the
      built-in ones; the override flag is whether the module phase recorded
      an owner for the command. */
  lemma ExtensionsOverrideModules(t: Tables, args: seq<string>, blacklist: set<string>, installed: Option<seq<string>>,
                                  units: map<string, Unit>, exts: seq<ExtensionEntry>, extUnits: map<string, Unit>,
                                  i: nat, k: string)
    requires !ModulesPhase(t, args, blacklist, installed, units).0.RootModuleRaised?
    requires i < |exts| && AllPathsFound(exts[..i + 1]) && k in ExtContribution(exts[i], extUnits)
    requires forall j :: i < j < |exts| ==> k !in ExtContribution(exts[j], extUnits)
    ensures LoadTable(t, args, blacklist, installed, units, Some(exts), extUnits).0.Some?
    ensures k in LoadTable(t, args, blacklist, installed, units, Some(exts), extUnits).0.value
    ensures LoadTable(t, args, blacklist, installed, units, Some(exts), extUnits).0.value[k]
         == ExtContribution(exts[i], extUnits)[k].(source := ExtensionSource(
              exts[i].modName.value, k in ModulesPhase(t, args, blacklist, installed, units).1.cmdToModMap))
  {
    ExtensionLastProviderWins(ModulesPhase(t, args, blacklist, installed, units).1, exts, extUnits, i, k);
  }

  // ---------------------------------------------------------------------
  // End-to-end examples

  const StorageList := Command("storage list", DefaultCommandHandler("azure.mgmt.storage#StorageAccountsOperations.list"),
                               DefaultArgumentsLoader, DefaultDescriptionLoader, map[], map[], Untagged)

  /** `az storage ...` with only the storage module installed. */
  lemma StorageExample()
    ensures LoadTable(Tables(map[], map[]), ["storage", "list"], {}, Some(["storage"]),
                      map["storage" := Loaded(map["storage list" := StorageList])], Some([]), map[])
         == (Some(map["storage list" := StorageList]),
             Tables(map["storage list" := StorageList], map["storage list" := "storage"]))
  {
    var t1 := Tables(map["storage list" := StorageList], map["storage list" := "storage"]);
    assert AfterModule(Tables(map[], map[]), Loaded(map["storage list" := StorageList]), "storage") == t1 by {
      assert Owners(map["storage list" := StorageList], "storage") == map["storage list" := "storage"];
    }
    assert |t1.commandTable| > 0 by { assert "storage list" in t1.commandTable; }
  }

  /** An extension providing `storage list` after the storage module did is
      flagged as overriding it, and one extension replacing another's command
      is not (the second extension goes unflagged). */
  lemma ExtensionOverrideExample()
    ensures var t := Tables(map["storage list" := StorageList], map["storage list" := "storage"]);
            var ext1 := Loaded(map["storage list" := StorageList, "foo show" := StorageList.(name := "foo show")]);
            var ext2 := Loaded(map["foo show" := StorageList.(name := "foo show")]);
            var r := ScanExtensions(t, [ExtensionEntry("ext1", true, Some("azext_ext1")),
                                        ExtensionEntry("ext2", true, Some("azext_ext2"))],
                                    map["azext_ext1" := ext1, "azext_ext2" := ext2]);
            && r.commandTable["storage list"].source == ExtensionSource("azext_ext1", true)
            && r.commandTable["foo show"].source == ExtensionSource("azext_ext2", false)
            && r.cmdToModMap == t.cmdToModMap
  {
    var t := Tables(map["storage list" := StorageList], map["storage list" := "storage"]);
    var ext1 := Loaded(map["storage list" := StorageList, "foo show" := StorageList.(name := "foo show")]);
    var ext2 := Loaded(map["foo show" := StorageList.(name := "foo show")]);
    var exts := [ExtensionEntry("ext1", true, Some("azext_ext1")), ExtensionEntry("ext2", true, Some("azext_ext2"))];
    var extUnits := map["azext_ext1" := ext1, "azext_ext2" := ext2];
    assert AllPathsFound(exts[..2]) by { assert exts[..2] == exts; }
    assert "foo show" !in ExtContribution(exts[1], extUnits) ==> false;
    ExtensionLastProviderWins(t, exts, extUnits, 0, "storage list");
    ExtensionLastProviderWins(t, exts, extUnits, 1, "foo show");
    ExtensionsKeepOwners(t, exts, extUnits);
  }

  // ---------------------------------------------------------------------
  // Properties of load_arguments

  /** Outside scope `''`, a scope holds the registrations of the last
      contributing loader that has it. */
  lemma LoaderArgumentsLastWins(before: map<string, map<string, Argument>>, loaders: seq<LoaderRegistry>,
                                locationType: Argument, i: nat, scope: string)
    requires scope != "" && i < |loaders| && scope in loaders[i].arguments
    requires forall j :: i < j < |loaders| ==> scope !in loaders[j].arguments
    ensures scope in WithGlobalArguments(UpdateAll(before, ArgumentMaps(loaders)), locationType)
    ensures WithGlobalArguments(UpdateAll(before, ArgumentMaps(loaders)), locationType)[scope]
         == loaders[i].arguments[scope]
  {
    UpdateAllLastWins(before, ArgumentMaps(loaders), i, scope);
    GlobalArgumentsKeepScopes(UpdateAll(before, ArgumentMaps(loaders)), locationType);
  }

  /** A scope no contributing loader registers keeps what it had. */
  lemma LoaderArgumentsUntouched(before: map<string, map<string, Argument>>, loaders: seq<LoaderRegistry>,
                                 locationType: Argument, scope: string)
    requires scope != "" && forall j :: 0 <= j < |loaders| ==> scope !in loaders[j].arguments
    ensures scope in WithGlobalArguments(UpdateAll(before, ArgumentMaps(loaders)), locationType) <==> scope in before
    ensures scope in before ==>
      WithGlobalArguments(UpdateAll(before, ArgumentMaps(loaders)), locationType)[scope] == before[scope]
  {
    UpdateAllUntouched(before, ArgumentMaps(loaders), scope);
    GlobalArgumentsKeepScopes(UpdateAll(before, ArgumentMaps(loaders)), locationType);
  }

  /** The extra-argument registry of the last contributing loader that has a
      command decides that command's extra arguments. */
  lemma LoaderExtraArgumentsLastWins(before: map<string, map<string, Argument>>, loaders: seq<LoaderRegistry>,
                                     i: nat, command: string)
    requires i < |loaders| && command in loaders[i].extraArguments
    requires forall j :: i < j < |loaders| ==> command !in loaders[j].extraArguments
    ensures command in UpdateAll(before, ExtraArgumentMaps(loaders))
    ensures UpdateAll(before, ExtraArgumentMaps(loaders))[command] == loaders[i].extraArguments[command]
  {
    UpdateAllLastWins(before, ExtraArgumentMaps(loaders), i, command);
  }
}
