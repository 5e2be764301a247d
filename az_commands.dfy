/** The per-module command loader `AzCommandsLoader`: registration of one
    command (`_cli_command`), API-version gating, the keyword-argument merges of
    `command_group` and `argument_context`, and the argument-override pass of
    `_update_command_definitions`. */
module AzCommands {
  import opened PyRuntime
  import opened PyStr

  /** An argument definition: the settings of a knack `CLIArgumentType`. */
  datatype Argument = Argument(settings: map<string, Value>)

  /** `argtype.update(other=overrides)`: the override's settings win. */
  function Overridden(a: Argument, overrides: Argument): Argument {
    Argument(a.settings + overrides.settings)
  }

  /** What runs the command: the handler given at registration, or the
      default handler that resolves `operation` when invoked. */
  datatype Handler = GivenHandler(handler: Value) | DefaultCommandHandler(operation: string)

  /** The argument and description loaders stored with a command. */
  datatype LoaderFn = GivenLoader(loader: Value) | DefaultArgumentsLoader | DefaultDescriptionLoader

  /** Provenance: extension commands are tagged when their extension loads. */
  datatype CommandSource = Untagged | ExtensionSource(extensionName: string, overridesCommand: bool)

  datatype Command = Command(
    name: string,
    handler: Handler,
    argumentsLoader: LoaderFn,
    descriptionLoader: LoaderFn,
    kwargs: map<string, Value>,
    arguments: map<string, Argument>,
    source: CommandSource)

  /** The merged keyword arguments handed to `_CommandGroup`. */
  datatype CommandGroup = CommandGroup(moduleName: string, groupName: string, kwargs: map<string, Value>)

  /** The merged keyword arguments handed to `_ParametersContext`. */
  datatype ParametersContext = ParametersContext(scope: string, kwargs: map<string, Value>)

  /** The sentinel `azure.cli.core.profiles.PROFILE_TYPE`. */
  const ProfileType: Value := Sym("PROFILE_TYPE")

  // ---------------------------------------------------------------------
  // Registration checks and name normalisation

  /** The three authoring checks of `_cli_command`, in their order. Only a
      truthy `operation` or `handler` counts as supplied, so `""` is absent. */
  function ValidateRegistration(operation: Value, handler: Value): (err: Option<Error>)
    ensures err == Some(OperationNotString) <==> Truthy(operation) && !operation.StrV?
    ensures err == Some(HandlerNotCallable) <==>
      (!Truthy(operation) || operation.StrV?) && Truthy(handler) && !Callable(handler)
    ensures err.None? <==>
      (Truthy(operation) && operation.StrV? && !Truthy(handler))
      || (!Truthy(operation) && Truthy(handler) && Callable(handler))
    ensures err == Some(NotExactlyOneOfOperationOrHandler) <==>
      (Truthy(operation) && operation.StrV? && Truthy(handler) && Callable(handler))
      || (!Truthy(operation) && !Truthy(handler))
  {
    if Truthy(operation) && !operation.StrV? then Some(OperationNotString)
    else if Truthy(handler) && !Callable(handler) then Some(HandlerNotCallable)
    else if Truthy(operation) == Truthy(handler) then Some(NotExactlyOneOfOperationOrHandler)
    else None
  }

  /** `' '.join(name.split())`. */
  function NormalizeName(name: string): string {
    Join(Words(name), " ")
  }

  /** A name in canonical form: whitespace only as single `' '` between two
      non-whitespace characters. */
  predicate Canonical(s: string) {
    forall i :: 0 <= i < |s| && IsSpace(s[i]) ==>
      s[i] == ' ' && 0 < i < |s| - 1 && !IsSpace(s[i - 1]) && !IsSpace(s[i + 1])
  }

  lemma {:induction false} JoinOfWordsCanonical(ws: seq<string>)
    requires forall i :: 0 <= i < |ws| ==> IsWord(ws[i])
    ensures Canonical(Join(ws, " "))
    ensures |ws| > 0 ==> Join(ws, " ") != [] && !IsSpace(Join(ws, " ")[0])
    decreases |ws|
  {
    if |ws| == 1 {
      assert IsWord(ws[0]);
    } else if |ws| > 1 {
      var w, j := ws[0], Join(ws[1..], " ");
      JoinOfWordsCanonical(ws[1..]);
      assert IsWord(w);
      var s := w + " " + j;
      assert Join(ws, " ") == s;
      forall i | 0 <= i < |s| && IsSpace(s[i])
        ensures s[i] == ' ' && 0 < i < |s| - 1 && !IsSpace(s[i - 1]) && !IsSpace(s[i + 1])
      {
        if i == |w| {
          assert s[i - 1] == w[|w| - 1];
          assert s[i + 1] == j[0];
        } else if i > |w| {
          assert s[i] == j[i - |w| - 1];
          if i - 1 > |w| { assert s[i - 1] == j[i - |w| - 2]; }
          assert s[i + 1] == j[i - |w|];
        }
      }
    }
  }

  /** The registered name keeps the words of the given name. */
  lemma NormalizeNameKeepsWords(name: string)
    ensures Words(NormalizeName(name)) == Words(name)
  {
    WordsAreWords(name);
    WordsOfJoin(Words(name));
  }

  /** The registered name is in canonical form. */
  lemma NormalizeNameCanonical(name: string)
    ensures Canonical(NormalizeName(name))
  {
    WordsAreWords(name);
    JoinOfWordsCanonical(Words(name));
  }

  /** Normalising a registered name again changes nothing. */
  lemma NormalizeNameIdempotent(name: string)
    ensures NormalizeName(NormalizeName(name)) == NormalizeName(name)
  {
    NormalizeNameKeepsWords(name);
  }

  /** The keyword under which the default handler passes the client built by
      `client_factory`: internal operations take `client`, SDK methods `self`. */
  function ClientArgName(operation: string): string {
    if StartsWith(operation, "azure.cli") then "client" else "self"
  }

  /** The keyword arguments the default handler calls the operation with: the
      command's arguments, plus the client when the factory produced one. */
  function HandlerArgs(operation: string, client: Value, commandArgs: map<string, Value>): (r: map<string, Value>)
    ensures r.Keys == commandArgs.Keys + (if Truthy(client) then {ClientArgName(operation)} else {})
    ensures Truthy(client) ==> r[ClientArgName(operation)] == client
    ensures forall k :: k in commandArgs && (k != ClientArgName(operation) || !Truthy(client)) ==> r[k] == commandArgs[k]
  {
    if Truthy(client) then commandArgs[ClientArgName(operation) := client] else commandArgs
  }

  /** Operations inside `azure.cli` receive the client as `client`, all
      others as `self`; without a client the arguments are passed as they are. */
  lemma HandlerClientSlot(operation: string, client: Value, commandArgs: map<string, Value>)
    ensures Truthy(client) && StartsWith(operation, "azure.cli") ==>
      "client" in HandlerArgs(operation, client, commandArgs) && HandlerArgs(operation, client, commandArgs)["client"] == client
    ensures Truthy(client) && !StartsWith(operation, "azure.cli") ==>
      "self" in HandlerArgs(operation, client, commandArgs) && HandlerArgs(operation, client, commandArgs)["self"] == client
    ensures !Truthy(client) ==> HandlerArgs(operation, client, commandArgs) == commandArgs
  {
  }

  /** The command `_cli_command` inserts, once the checks have passed. */
  function NewCommand(name: string, operation: Value, handler: Value, argumentLoader: Value,
                      descriptionLoader: Value, kwargs: map<string, Value>): (c: Command)
    requires ValidateRegistration(operation, handler).None?
    ensures c.name == NormalizeName(name) && Canonical(c.name) && Words(c.name) == Words(name)
    ensures c.kwargs == kwargs && c.arguments == map[] && c.source == Untagged
    ensures Truthy(handler) ==> c.handler == GivenHandler(handler)
    ensures !Truthy(handler) ==> c.handler == DefaultCommandHandler(operation.s) && operation.s != ""
    ensures c.argumentsLoader == (if Truthy(argumentLoader) then GivenLoader(argumentLoader) else DefaultArgumentsLoader)
    ensures c.descriptionLoader == (if Truthy(descriptionLoader) then GivenLoader(descriptionLoader) else DefaultDescriptionLoader)
  {
    NormalizeNameCanonical(name);
    NormalizeNameKeepsWords(name);
    Command(NormalizeName(name),
            if Truthy(handler) then GivenHandler(handler) else DefaultCommandHandler(operation.s),
            if Truthy(argumentLoader) then GivenLoader(argumentLoader) else DefaultArgumentsLoader,
            if Truthy(descriptionLoader) then GivenLoader(descriptionLoader) else DefaultDescriptionLoader,
            kwargs, map[], Untagged)
  }

  // ---------------------------------------------------------------------
  // Argument overrides

  /** The arguments of command `name` after `_update_command_definitions`:
      every existing argument with its override applied, then every extra
      argument registered for the command, replacing a same-named one, with
      its override applied. */
  function DefinedArguments(name: string, args: map<string, Argument>, extra: map<string, Argument>,
                            overridesFor: (string, string) -> Argument): (r: map<string, Argument>)
    ensures r.Keys == args.Keys + extra.Keys
    ensures forall a :: a in extra ==> r[a] == Overridden(extra[a], overridesFor(name, a))
    ensures forall a :: a in args && a !in extra ==> r[a] == Overridden(args[a], overridesFor(name, a))
  {
    (map a | a in args :: Overridden(args[a], overridesFor(name, a)))
      + (map a | a in extra :: Overridden(extra[a], overridesFor(name, a)))
  }

  /** The first loop of `_update_command_definitions` over one command:
      each existing argument gets its override. */
  method ApplyOverrides(name: string, args: map<string, Argument>, overridesFor: (string, string) -> Argument)
    returns (arguments: map<string, Argument>)
    ensures arguments.Keys == args.Keys
    ensures forall a :: a in args ==> arguments[a] == Overridden(args[a], overridesFor(name, a))
  {
    arguments := args;
    var todo := args.Keys;
    while todo != {}
      invariant todo <= args.Keys && arguments.Keys == args.Keys
      invariant forall a :: a in args && a !in todo ==> arguments[a] == Overridden(args[a], overridesFor(name, a))
      invariant forall a :: a in todo ==> arguments[a] == args[a]
      decreases todo
    {
      var a :| a in todo;
      arguments := arguments[a := Overridden(arguments[a], overridesFor(name, a))];
      todo := todo - {a};
    }
  }

  /** The second loop: each extra argument registered for the command is
      stored, replacing a same-named one, and then gets its override. */
  method AddExtraArguments(name: string, args: map<string, Argument>, extra: map<string, Argument>,
                           overridesFor: (string, string) -> Argument)
    returns (arguments: map<string, Argument>)
    ensures arguments.Keys == args.Keys + extra.Keys
    ensures forall a :: a in extra ==> arguments[a] == Overridden(extra[a], overridesFor(name, a))
    ensures forall a :: a in args && a !in extra ==> arguments[a] == args[a]
  {
    arguments := args;
    var pending := extra.Keys;
    while pending != {}
      invariant pending <= extra.Keys
      invariant arguments.Keys == args.Keys + (extra.Keys - pending)
      invariant forall a :: a in extra && a !in pending ==> arguments[a] == Overridden(extra[a], overridesFor(name, a))
      invariant forall a :: a in args && a !in extra.Keys - pending ==> arguments[a] == args[a]
      decreases pending
    {
      var a :| a in pending;
      arguments := arguments[a := extra[a]];
      arguments := arguments[a := Overridden(arguments[a], overridesFor(name, a))];
      pending := pending - {a};
    }
  }

  /** Both loops of `_update_command_definitions` over one command. */
  method UpdateArguments(name: string, args: map<string, Argument>, extra: map<string, Argument>,
                         overridesFor: (string, string) -> Argument)
    returns (arguments: map<string, Argument>)
    ensures arguments == DefinedArguments(name, args, extra, overridesFor)
  {
    var overridden := ApplyOverrides(name, args, overridesFor);
    arguments := AddExtraArguments(name, overridden, extra, overridesFor);
    var spec := DefinedArguments(name, args, extra, overridesFor);
    assert arguments.Keys == spec.Keys;
    forall a | a in arguments ensures arguments[a] == spec[a] {
      if a in extra {
      } else {
        assert arguments[a] == overridden[a];
      }
    }
  }

  /** `extra_argument_registry[name]`, empty for an unregistered name. */
  function ExtraOf(registry: map<string, map<string, Argument>>, name: string): map<string, Argument> {
    if name in registry then registry[name] else map[]
  }

  /** A command with its arguments resolved against the overrides and
      extended by its extra arguments. */
  function Redefined(cmd: Command, name: string, extra: map<string, Argument>,
                     overridesFor: (string, string) -> Argument): Command {
    cmd.(arguments := DefinedArguments(name, cmd.arguments, extra, overridesFor))
  }

  /** The loop of `_update_command_definitions` over the command table. */
  method RedefineCommands(table: map<string, Command>, registry: map<string, map<string, Argument>>,
                          overridesFor: (string, string) -> Argument)
    returns (r: map<string, Command>)
    ensures r.Keys == table.Keys
    ensures forall n :: n in table ==>
      r[n] == table[n].(arguments := DefinedArguments(n, table[n].arguments, ExtraOf(registry, n), overridesFor))
  {
    r := table;
    var todo := table.Keys;
    while todo != {}
      invariant todo <= table.Keys
      invariant forall n :: n in r <==> n in table
      invariant forall n :: n in table ==>
        r[n] == if n in todo then table[n] else Redefined(table[n], n, ExtraOf(registry, n), overridesFor)
      decreases todo
    {
      var n :| n in todo;
      var command := table[n];
      var arguments := UpdateArguments(n, command.arguments, ExtraOf(registry, n), overridesFor);
      r := r[n := command.(arguments := arguments)];
      todo := todo - {n};
    }
  }

  // ---------------------------------------------------------------------
  // The loader object

  class AzCommandsLoader {
    const moduleName: string
    const minProfile: Value
    const maxProfile: Value
    const moduleKwargs: map<string, Value>
    /** `profiles.supported_api_version` bound to the CLI context: does the
        active profile's version of a resource type lie within the bounds. */
    const profileSupports: (Value, Value, Value) -> bool
    var commandTable: map<string, Command>
    var extraArguments: map<string, map<string, Argument>>

    /** `__init__`; the source's defaults `min_profile=None` and
        `max_profile='latest'` are left to the caller. */
    constructor (minProfile: Value, maxProfile: Value, moduleKwargs: map<string, Value>,
                 profileSupports: (Value, Value, Value) -> bool)
      ensures this.moduleName == "azure.cli.core"
      ensures this.minProfile == minProfile && this.maxProfile == maxProfile
      ensures this.moduleKwargs == moduleKwargs && this.profileSupports == profileSupports
      ensures commandTable == map[] && extraArguments == map[]
    {
      this.moduleName := "azure.cli.core";
      this.minProfile := minProfile;
      this.maxProfile := maxProfile;
      this.moduleKwargs := moduleKwargs;
      this.profileSupports := profileSupports;
      commandTable := map[];
      extraArguments := map[];
    }

    /** The bounds `supported_api_version` passes on: an argument that is
        truthy is used, otherwise the loader's default. */
    function ApiQuery(resourceType: Value, minApi: Value, maxApi: Value): (Value, Value, Value) {
      (PyOr(resourceType, ProfileType), PyOr(minApi, minProfile), PyOr(maxApi, maxProfile))
    }

    predicate SupportedApiVersion(resourceType: Value, minApi: Value, maxApi: Value) {
      var q := ApiQuery(resourceType, minApi, maxApi);
      profileSupports(q.0, q.1, q.2)
    }

    /** A command registered without `resource_type`, `min_api` or `max_api`
        (or with falsy values) is kept exactly when the active profile
        supports `PROFILE_TYPE` within the loader's own bounds; given values
        are passed on unchanged. */
    lemma SupportedApiDefaults(kwargs: map<string, Value>)
      ensures !Truthy(Get(kwargs, "resource_type")) && !Truthy(Get(kwargs, "min_api")) && !Truthy(Get(kwargs, "max_api")) ==>
        (SupportedApiVersion(Get(kwargs, "resource_type"), Get(kwargs, "min_api"), Get(kwargs, "max_api"))
         <==> profileSupports(ProfileType, minProfile, maxProfile))
      ensures "resource_type" in kwargs && Truthy(kwargs["resource_type"]) ==>
        ApiQuery(Get(kwargs, "resource_type"), Get(kwargs, "min_api"), Get(kwargs, "max_api")).0 == kwargs["resource_type"]
      ensures "min_api" in kwargs && Truthy(kwargs["min_api"]) ==>
        ApiQuery(Get(kwargs, "resource_type"), Get(kwargs, "min_api"), Get(kwargs, "max_api")).1 == kwargs["min_api"]
      ensures "max_api" in kwargs && Truthy(kwargs["max_api"]) ==>
        ApiQuery(Get(kwargs, "resource_type"), Get(kwargs, "min_api"), Get(kwargs, "max_api")).2 == kwargs["max_api"]
    {
    }

    /** `get_api_version` and `supported_api_version` agree on a given
        resource type, but differ in their default: the former falls back to
        the module's `resource_type`, the latter to `PROFILE_TYPE`. */
    lemma ResourceTypeDefaults(resourceType: Value, minApi: Value, maxApi: Value)
      ensures Truthy(resourceType) ==>
        ApiVersionResourceType(resourceType) == resourceType == ApiQuery(resourceType, minApi, maxApi).0
      ensures !Truthy(resourceType) ==>
        && ApiQuery(resourceType, minApi, maxApi).0 == ProfileType
        && ApiVersionResourceType(resourceType) == Get(moduleKwargs, "resource_type")
    {
    }

    /** The resource type `get_api_version` asks about: the given one when
        truthy, else the module's `resource_type` keyword argument. */
    function ApiVersionResourceType(resourceType: Value): Value {
      PyOr(resourceType, Get(moduleKwargs, "resource_type"))
    }

    /** `command_group`: a copy of the module's keyword arguments, then
        `command_type` when given, then the call's own keyword arguments. */
    function CommandGroupFor(groupName: string, commandType: Value, kwargs: map<string, Value>): (g: CommandGroup)
      requires "command_type" !in kwargs
      ensures g.moduleName == moduleName && g.groupName == groupName
      ensures forall k :: k in g.kwargs <==>
        k in moduleKwargs || k in kwargs || (k == "command_type" && Truthy(commandType))
      ensures forall k :: k in kwargs ==> g.kwargs[k] == kwargs[k]
      ensures Truthy(commandType) ==> g.kwargs["command_type"] == commandType
      ensures forall k :: k in moduleKwargs && k !in kwargs && !(k == "command_type" && Truthy(commandType)) ==>
        g.kwargs[k] == moduleKwargs[k]
    {
      var merged := if Truthy(commandType) then moduleKwargs["command_type" := commandType] else moduleKwargs;
      CommandGroup(moduleName, groupName, merged + kwargs)
    }

    /** `argument_context`: a copy of the module's keyword arguments with the
        call's own keyword arguments winning. */
    function ArgumentContextFor(scope: string, kwargs: map<string, Value>): (p: ParametersContext)
      ensures p.scope == scope && p.kwargs.Keys == moduleKwargs.Keys + kwargs.Keys
      ensures forall k :: k in kwargs ==> p.kwargs[k] == kwargs[k]
      ensures forall k :: k in moduleKwargs && k !in kwargs ==> p.kwargs[k] == moduleKwargs[k]
    {
      ParametersContext(scope, moduleKwargs + kwargs)
    }

    /** `_cli_command`: the authoring checks, then an insertion under the
        normalised name, overwriting any previous entry, only when the active
        profile supports the command. */
    method CliCommand(name: string, operation: Value, handler: Value, argumentLoader: Value,
                      descriptionLoader: Value, kwargs: map<string, Value>)
      returns (err: Option<Error>)
      modifies this`commandTable
      ensures err == ValidateRegistration(operation, handler)
      ensures commandTable ==
        if err.None? && SupportedApiVersion(Get(kwargs, "resource_type"), Get(kwargs, "min_api"), Get(kwargs, "max_api"))
        then old(commandTable)[NormalizeName(name) := NewCommand(name, operation, handler, argumentLoader, descriptionLoader, kwargs)]
        else old(commandTable)
    {
      err := ValidateRegistration(operation, handler);
      if err.Some? {
        assert commandTable == old(commandTable);
      } else {
        var command := NewCommand(name, operation, handler, argumentLoader, descriptionLoader, kwargs);
        if SupportedApiVersion(Get(kwargs, "resource_type"), Get(kwargs, "min_api"), Get(kwargs, "max_api")) {
          commandTable := commandTable[NormalizeName(name) := command];
          assert commandTable == old(commandTable)[NormalizeName(name) := command];
        } else {
          assert commandTable == old(commandTable);
        }
      }
    }

    /** `_update_command_definitions`: every command's arguments are resolved
        against the argument registry (`overridesFor` is its
        `get_cli_argument`) and extended by the extra arguments. */
    method UpdateCommandDefinitions(overridesFor: (string, string) -> Argument)
      modifies this`commandTable
      ensures commandTable.Keys == old(commandTable).Keys
      ensures forall n :: n in commandTable ==>
        commandTable[n] == old(commandTable)[n].(arguments :=
          DefinedArguments(n, old(commandTable)[n].arguments, ExtraOf(extraArguments, n), overridesFor))
    {
      commandTable := RedefineCommands(commandTable, extraArguments, overridesFor);
    }
  }
}
