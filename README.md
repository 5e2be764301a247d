# Azure CLI command loading, modelled in Dafny

This project models the core of the Azure CLI's command loading, found in
`azure/cli/core/__init__.py`. It has two loaders.

- **`MainCommandsLoader`** assembles the command table for one invocation,
  in two phases.
  - The module phase first tries the command module named by the first
    input token, the *root command*, unless that token is on the blacklist
    (`BLACKLISTED_MODS`).
  - If that leaves the table empty, it falls back to scanning every
    installed module outside the blacklist. It records in `cmd_to_mod_map`
    the built-in module that owns each command.
  - The extension phase always follows. It tags every extension command
    with its extension and with whether a built-in module owns a command of
    the same name, then merges it over the table.
  - `load_arguments` merges the argument registries of the loaders that
    contribute to a command, later loaders winning, and then registers four
    fixed global arguments.
- **`AzCommandsLoader`** is the per-module loader.
  - `_cli_command` validates a registration, normalises the command name
    and inserts the command, but only when the active profile supports its
    API version.
  - `get_op_handler` resolves an operation reference
    `"<module>#<Attr>.<Attr>"`. It first rewrites the SDK import prefixes
    of the resource types into their versioned paths.
  - `_apply_doc_string` parses a documentation-source reference.
  - `command_group` and `argument_context` merge keyword arguments.
  - `_update_command_definitions` applies argument overrides and adds
    extra arguments.

The modules:

- `PyRuntime` holds the parts of Python the code relies on: values,
  truthiness, `or`, `callable`, `getattr` over an abstract object tree, and
  the exceptions raised.
- `PyStr` holds the string builtins: `str.split()`, `' '.join`,
  `split(c)`, `split(c, 1)`, `startswith` and `replace`.
- `Dicts` models repeated `dict.update`.
- `AzCommands` models `AzCommandsLoader`.
- `OperationRefs` models `get_op_handler` and `_apply_doc_string`.
- `MainLoader` models `MainCommandsLoader`.

Code that updates state step by step is a class or a method with loops.
- `AzCommandsLoader.CliCommand` and `UpdateCommandDefinitions` update the
  loader's command table.
- The `MainCommandsLoader` methods update `commandTable`, `cmdToModMap` and
  the argument registries.
- `GetOpHandler` runs the substitution loop and the attribute walk.

Each method is proved against a specification function of the old state
and its inputs: `AfterModule`, `ModulesPhase`, `ExtensionsPhase`,
`LoadTable`, `ResolveOperation` and `DefinedArguments`. The lemmas then
state what the source promises about those functions.

Several things are inputs rather than computations.
- Importing a command module or an extension and running its loader
  (`load_command_loader`) is a map from the module name to a `Unit`: not
  found, raises, or yields a table of commands.
- The list of installed modules is `Option<seq<string>>`. `None` means the
  modules namespace failed to import.
- The installed extensions are `Option<seq<ExtensionEntry>>`. `None` means
  `get_extension_names` raised. Each entry records whether
  `get_extension_path` and `get_extension_modname` succeed.
- The version check of `profiles.supported_api_version` is a function
  parameter `profileSupports`.
- `get_versioned_sdk_path` is a function parameter `versionedPath`.
- The registry's `get_cli_argument` is a function parameter `overridesFor`.
- The importable modules of `get_op_handler` are a map from dotted path to
  object.

Where the code and its prose description differ, the model follows the
code.
- An extension's commands are tagged with the name returned by
  `get_extension_modname`, not the extension's display name: line 193
  passes `ext_mod` as `extension_name`.
- An exception from `get_extension_path` is caught only by the outer
  handler, so it ends the whole extension phase.
- The targeted module is loaded outside any handler. An exception other
  than "module not found" escapes `load_command_table`, and no extension
  is then loaded.
- The test after the targeted load is whether the whole command table is
  non-empty, not whether that module returned anything.

## Model

| member | source | states |
|---|---|---|
| PyRuntime.PyOr | src/azure-cli-core/azure/cli/core/__init__.py:290-292 | `a or b` is one of its operands and is truthy iff either operand is; it is `a` when `a` is truthy and `b` otherwise |
| PyRuntime.MethodForwardsToFunction | src/azure-cli-core/azure/cli/core/__init__.py:382-384 | a method's `__func__` is its underlying function, and every other attribute lookup on the method is forwarded to that function |
| PyStr.DropSpacesSuffix | src/azure-cli-core/azure/cli/core/__init__.py:327 | stripping leading whitespace leaves a suffix of the string and removes only whitespace |
| PyStr.WordPrefixFacts | src/azure-cli-core/azure/cli/core/__init__.py:327 | the first word is a whitespace-free prefix that ends at whitespace or at the end of the string |
| PyStr.WordsAreWords | src/azure-cli-core/azure/cli/core/__init__.py:327 | every element of `name.split()` is a non-empty word without whitespace |
| PyStr.WordsOfJoin | src/azure-cli-core/azure/cli/core/__init__.py:327 | splitting the space-join of words gives the same words back |
| PyStr.SplitOn | src/azure-cli-core/azure/cli/core/__init__.py:378-380 | `split(c)` yields at least one part |
| PyStr.SplitOnJoin | src/azure-cli-core/azure/cli/core/__init__.py:378-380 | joining the parts of `split(c)` with `c` gives the string back; no part contains `c`; there is one part more than there are occurrences of `c` |
| PyStr.SplitOnce | src/azure-cli-core/azure/cli/core/__init__.py:268-271 | `split(c, 1)` yields one or two parts |
| PyStr.SplitOnceParts | src/azure-cli-core/azure/cli/core/__init__.py:268-271 | one part exactly when `c` is absent; otherwise the first part is free of `c` and `first + c + second` is the string |
| PyStr.ReplaceAbsent | src/azure-cli-core/azure/cli/core/__init__.py:374-375 | `replace` leaves a string without the pattern unchanged |
| PyStr.ReplaceLeading | src/azure-cli-core/azure/cli/core/__init__.py:373-375 | a string starting with the pattern is rewritten to start with the replacement |
| PyStr.ReplaceEveryOccurrence | src/azure-cli-core/azure/cli/core/__init__.py:374-375 | `replace` rewrites every occurrence, not just the leading one (`"azure.mgmt#azure.mgmt"` becomes `"v1#v1"`) |
| PyStr.ReplaceCharIsJoin | src/azure-cli-core/azure/cli/core/__init__.py:374-375 | replacing a one-character pattern is splitting on that character and joining with the replacement |
| PyStr.ReplaceFirstOccurrence | src/azure-cli-core/azure/cli/core/__init__.py:374-375 | `replace` rewrites the first occurrence of the pattern and continues after it, leaving the text before it unchanged |
| Dicts.LastUpdateWins | src/azure-cli-core/azure/cli/core/__init__.py:217-220 | after repeated `update`, a key is present iff the start or some update has it, and holds the value of the last update that has it, otherwise the original |
| Dicts.LastValueFound | src/azure-cli-core/azure/cli/core/__init__.py:217-220 | the last-update reference definition finds a key iff some update holds it |
| Dicts.UpdateAllUntouched | src/azure-cli-core/azure/cli/core/__init__.py:217-220 | a key no update holds keeps its presence and value |
| Dicts.UpdateAllLastWins | src/azure-cli-core/azure/cli/core/__init__.py:217-220 | the update at index i decides a key when no later update holds it |
| AzCommands.ValidateRegistration | src/azure-cli-core/azure/cli/core/__init__.py:320-325 | the three TypeErrors in order, each as an iff: a truthy non-string operation; a truthy non-callable handler; both or neither supplied (by truthiness); no error exactly when exactly one valid operation or handler is supplied |
| AzCommands.JoinOfWordsCanonical | src/azure-cli-core/azure/cli/core/__init__.py:327 | the space-join of words has whitespace only as single spaces between non-whitespace characters |
| AzCommands.NormalizeNameKeepsWords | src/azure-cli-core/azure/cli/core/__init__.py:327 | the registered name has the same words as the given name |
| AzCommands.NormalizeNameCanonical | src/azure-cli-core/azure/cli/core/__init__.py:327 | the registered name is canonical: single spaces between non-whitespace words |
| AzCommands.NormalizeNameIdempotent | src/azure-cli-core/azure/cli/core/__init__.py:327 | normalising a registered name again changes nothing |
| AzCommands.HandlerArgs | src/azure-cli-core/azure/cli/core/__init__.py:334-338 | the default handler's call arguments are the command arguments plus, when the client is truthy, the client under its name |
| AzCommands.HandlerClientSlot | src/azure-cli-core/azure/cli/core/__init__.py:334-338 | a truthy client goes under `client` for operations starting with `azure.cli` and under `self` for all others; with no client the command arguments pass unchanged |
| AzCommands.NewCommand | src/azure-cli-core/azure/cli/core/__init__.py:327-360 | the inserted command has a canonical name with the same words as the given name, keeps the keyword arguments, starts with no arguments and untagged, and has the given handler (else the default handler for a non-empty operation) and the given loaders (else the default loaders) |
| AzCommands.DefinedArguments | src/azure-cli-core/azure/cli/core/__init__.py:241-251 | the argument names are the existing ones plus the extra ones; an extra argument replaces a same-named one; every argument carries its override |
| AzCommands.ApplyOverrides | src/azure-cli-core/azure/cli/core/__init__.py:243-245 | the first loop keeps the argument names and applies each argument's override |
| AzCommands.AddExtraArguments | src/azure-cli-core/azure/cli/core/__init__.py:248-251 | the second loop stores each extra argument, replacing a same-named one, with its override applied, and leaves the others alone |
| AzCommands.UpdateArguments | src/azure-cli-core/azure/cli/core/__init__.py:242-251 | both loops over one command compute `DefinedArguments` |
| AzCommands.RedefineCommands | src/azure-cli-core/azure/cli/core/__init__.py:241-251 | the loop over the table keeps every command's name and the rest of its definition, and its arguments become `DefinedArguments` with its extra arguments |
| AzCommands.AzCommandsLoader.constructor | src/azure-cli-core/azure/cli/core/__init__.py:233-239 | the loader records its module name, profile bounds and module keyword arguments |
| AzCommands.AzCommandsLoader.SupportedApiDefaults | src/azure-cli-core/azure/cli/core/__init__.py:286-292 | with no truthy `resource_type`, `min_api` or `max_api`, a command's support check is the profile check of `PROFILE_TYPE` between the loader's min and max profile; each truthy one given is passed through unchanged |
| AzCommands.AzCommandsLoader.ResourceTypeDefaults | src/azure-cli-core/azure/cli/core/__init__.py:281-292 | a truthy resource type is used by both `get_api_version` and `supported_api_version`; a falsy one becomes `PROFILE_TYPE` in the support check but the module's `resource_type` keyword argument in `get_api_version` |
| AzCommands.AzCommandsLoader.CommandGroupFor | src/azure-cli-core/azure/cli/core/__init__.py:304-310 | the group's keyword arguments are the module's, then `command_type` when truthy, then the call's own, each later one winning |
| AzCommands.AzCommandsLoader.ArgumentContextFor | src/azure-cli-core/azure/cli/core/__init__.py:312-316 | the context's keyword arguments are the module's with the call's own winning |
| AzCommands.AzCommandsLoader.CliCommand | src/azure-cli-core/azure/cli/core/__init__.py:318-360 | the error is the validation result; the table gains the new command under the normalised name, replacing any previous entry, exactly when validation passes and the profile supports the command; otherwise the table is unchanged |
| AzCommands.AzCommandsLoader.UpdateCommandDefinitions | src/azure-cli-core/azure/cli/core/__init__.py:241-251 | every command keeps its name and the rest of its definition, and its arguments become `DefinedArguments` against the registry's overrides and its extra arguments |
| OperationRefs.GetOpHandler | src/azure-cli-core/azure/cli/core/__init__.py:362-386 | the substitution loop, the `#` split, the import, the attribute walk and the unwrap compute `ResolveOperation` |
| OperationRefs.SubstituteInSequence | src/azure-cli-core/azure/cli/core/__init__.py:372-375 | resource types are visited in order, each tested against the string the earlier ones produced |
| OperationRefs.SubstituteNoMatch | src/azure-cli-core/azure/cli/core/__init__.py:372-375 | a reference matching no import prefix passes through unchanged |
| OperationRefs.SubstituteChains | src/azure-cli-core/azure/cli/core/__init__.py:372-375 | a match rewrites every occurrence, and a later prefix is tested on the rewritten string (`"a.b#a.b"` becomes `"d.e#d.e"`) |
| OperationRefs.ResolveNeedsOneHash | src/azure-cli-core/azure/cli/core/__init__.py:378-386 | a rewritten reference without exactly one `#` raises the invalid-operation ValueError naming the rewritten string |
| OperationRefs.ResolveMissingModule | src/azure-cli-core/azure/cli/core/__init__.py:377-386 | for any operation whose rewritten form is `<module>#<attrs>` with a module that cannot be imported, the import error is raised |
| OperationRefs.ResolveFailedLookup | src/azure-cli-core/azure/cli/core/__init__.py:380-386 | for any operation whose rewritten form is `<module>#<attrs>`: a failed attribute lookup anywhere in the chain raises the invalid-operation ValueError |
| OperationRefs.ResolveUnwraps | src/azure-cli-core/azure/cli/core/__init__.py:382-386 | for any operation whose rewritten form is `<module>#<attrs>` and whose chain resolves: a plain function is returned unchanged; a method yields its underlying function; a namespace with `__func__` yields that attribute; a namespace without it raises the invalid-operation ValueError |
| OperationRefs.HashSplit | src/azure-cli-core/azure/cli/core/__init__.py:378 | `"<module>#<attrs>"` with no other `#` splits into exactly those two parts |
| OperationRefs.NeverBoundMethod | src/azure-cli-core/azure/cli/core/__init__.py:382-384 | a resolved handler whose target is not a namespace is a plain function |
| OperationRefs.ParseDocStringSource | src/azure-cli-core/azure/cli/core/__init__.py:268-271 | parsing succeeds iff the source contains `#`, and otherwise is the unpacking ValueError |
| OperationRefs.ParseRendersBack | src/azure-cli-core/azure/cli/core/__init__.py:268-271 | a parsed reference has a path free of `#` and a model name free of `.`, and its text form is the source it came from |
| OperationRefs.ParseRenderRoundTrip | src/azure-cli-core/azure/cli/core/__init__.py:268-271 | parsing the text form of a well-formed reference gives the reference back |
| OperationRefs.ApplyDocString | src/azure-cli-core/azure/cli/core/__init__.py:253-277 | an absent or falsy source copies nothing; a truthy non-string raises the slowdown CLIError when it has `__name__` and the AttributeError otherwise; a model from `get_models` is used; without one, a source lacking `#` raises the unpacking ValueError, a failed import passes its error through, a missing model attribute raises AttributeError, an empty or absent method name uses the model, and a missing method raises the not-found CLIError |
| MainLoader.Tagged | src/azure-cli-core/azure/cli/core/__init__.py:111-114 | every extension command keeps its definition and gets the extension name and `overrides_command` equal to whether the ownership map holds its name |
| MainLoader.AfterModuleEffect | src/azure-cli-core/azure/cli/core/__init__.py:94-101 | a loaded module's commands enter the table and are owned by the module; other entries keep their values; a missing or broken module changes neither map |
| MainLoader.AfterExtensionEffect | src/azure-cli-core/azure/cli/core/__init__.py:107-119 | the ownership map is unchanged; the extension's commands enter the table tagged; other entries keep their values |
| MainLoader.TagCommands | src/azure-cli-core/azure/cli/core/__init__.py:109-115 | the tagging loop computes `Tagged`: every command keeps its definition and is tagged with the extension and whether a built-in module owns its name |
| MainLoader.OutsideBlacklist | src/azure-cli-core/azure/cli/core/__init__.py:153-154 | the scanned modules are installed and not blacklisted, and every installed module outside the blacklist is scanned |
| MainLoader.OutsideBlacklistAppend | src/azure-cli-core/azure/cli/core/__init__.py:153-154 | the blacklist filter of a concatenation is the concatenation of the filters (it keeps order) |
| MainLoader.OutsideBlacklistSingle | src/azure-cli-core/azure/cli/core/__init__.py:153-154 | the filter of one module is that module when it is not blacklisted and nothing otherwise |
| MainLoader.GlobalArgumentsKeepScopes | src/azure-cli-core/azure/cli/core/__init__.py:222-226 | setting the global arguments adds scope `''` and keeps every other scope as it was |
| MainLoader.GlobalArgumentsInScope | src/azure-cli-core/azure/cli/core/__init__.py:222-226 | scope `''` gains `resource_group_name`, `location`, `deployment_name` and `cmd` with their fixed types over what the loaders put there, and keeps its other arguments |
| MainLoader.AfterExtensionEntryEffect | src/azure-cli-core/azure/cli/core/__init__.py:188-193 | an extension whose module-name lookup raises changes nothing; otherwise its commands enter the table tagged, other entries and the ownership map are kept |
| MainLoader.ExtensionStep | src/azure-cli-core/azure/cli/core/__init__.py:185-196 | an extension whose path lookup succeeds is loaded and reported when it fails, then the loop goes on with the rest |
| MainLoader.ExtensionPhaseStops | src/azure-cli-core/azure/cli/core/__init__.py:185-199 | an extension whose path lookup raises ends the loop: it and later extensions neither load nor are reported |
| MainLoader.ExtensionsReported | src/azure-cli-core/azure/cli/core/__init__.py:185-196 | an extension name is reported iff some extension with that name is reached, every path lookup up to and including it succeeded, and its load fails |
| MainLoader.MainCommandsLoader.constructor | src/azure-cli-core/azure/cli/core/__init__.py:80-85 | a new loader starts with empty tables and registries |
| MainLoader.MainCommandsLoader.LoadCommandsFromCommandModule | src/azure-cli-core/azure/cli/core/__init__.py:90-101 | the maps become `AfterModule`; the result is the module's table, `None` when not found, or the exception |
| MainLoader.MainCommandsLoader.LoadCommandsFromExtension | src/azure-cli-core/azure/cli/core/__init__.py:103-119 | the tagging loop and the merge give `AfterExtension`; the result is the tagged table, `None`, or the exception |
| MainLoader.MainCommandsLoader.UpdateCommandTableFromModules | src/azure-cli-core/azure/cli/core/__init__.py:121-170 | the targeted load, the early return and the fallback loop compute `ModulesPhase`, outcome and maps |
| MainLoader.MainCommandsLoader.LoadInstalledModules | src/azure-cli-core/azure/cli/core/__init__.py:157-168 | the fallback loop gives `ScanModules` and reports exactly the modules whose load raised |
| MainLoader.MainCommandsLoader.LoadExtensionAt | src/azure-cli-core/azure/cli/core/__init__.py:185-196 | one round of the extension loop advances the scan and the failure list by one extension |
| MainLoader.MainCommandsLoader.LoadExtensionEntry | src/azure-cli-core/azure/cli/core/__init__.py:188-196 | the inner handler: the load succeeds exactly when neither the module-name lookup nor the load raises |
| MainLoader.MainCommandsLoader.LoadExtensionsInOrder | src/azure-cli-core/azure/cli/core/__init__.py:185-196 | the loop over the extensions gives `ScanExtensions`, reports exactly `FailedExtensions`, and completes iff every path lookup succeeds |
| MainLoader.MainCommandsLoader.UpdateCommandTableFromExtensions | src/azure-cli-core/azure/cli/core/__init__.py:172-199 | the extension phase computes `ExtensionsPhase`; a failing enumeration changes nothing |
| MainLoader.MainCommandsLoader.LoadCommandTable | src/azure-cli-core/azure/cli/core/__init__.py:201-208 | the module phase, then the extension phase, returning the table: `LoadTable` |
| MainLoader.MainCommandsLoader.MergeRegistries | src/azure-cli-core/azure/cli/core/__init__.py:216-220 | the loop over the contributing loaders merges their argument and extra registries in order |
| MainLoader.MainCommandsLoader.LoadArguments | src/azure-cli-core/azure/cli/core/__init__.py:210-228 | with contributing loaders: argument and extra registries are their in-order merges, the four global arguments are set, and the base `load_arguments` runs once; without loaders: nothing changes |
| MainLoader.BrokenModuleIsolated | src/azure-cli-core/azure/cli/core/__init__.py:159-168 | a module that raises during the scan changes nothing, so the scan of the others is the same with or without it |
| MainLoader.ScanLeavesOthers | src/azure-cli-core/azure/cli/core/__init__.py:159-168 | a command no scanned module provides keeps its table entry and its owner |
| MainLoader.ScanLastProviderWins | src/azure-cli-core/azure/cli/core/__init__.py:159-168 | the last scanned module providing a command decides its entry and is recorded as its owner |
| MainLoader.BrokenModulesReported | src/azure-cli-core/azure/cli/core/__init__.py:159-167 | the scan reports exactly the listed modules whose load raised |
| MainLoader.TargetedLoadSkipsScan | src/azure-cli-core/azure/cli/core/__init__.py:141-146 | a targeted load leaving the table non-empty ends the module phase; the installed modules do not matter |
| MainLoader.BlacklistedRootScansAll | src/azure-cli-core/azure/cli/core/__init__.py:141-159 | with no root token or a blacklisted one, every installed non-blacklisted module is scanned from the unchanged tables, and the root's own module is not among them |
| MainLoader.RootModuleFailureAborts | src/azure-cli-core/azure/cli/core/__init__.py:141-143 | a targeted module that raises aborts the load: no scan, no extensions, tables unchanged |
| MainLoader.ExtensionsKeepOwners | src/azure-cli-core/azure/cli/core/__init__.py:103-119 | the extension phase never changes the ownership map |
| MainLoader.ExtensionsLeaveOthers | src/azure-cli-core/azure/cli/core/__init__.py:185-196 | a command no reached extension provides keeps its table entry |
| MainLoader.ExtensionLastProviderWins | src/azure-cli-core/azure/cli/core/__init__.py:185-196 | the last reached extension providing a command decides its entry, tagged with that extension's module name and whether a built-in module owned it before the extension phase |
| MainLoader.ExtensionsOverrideModules | src/azure-cli-core/azure/cli/core/__init__.py:201-203 | extensions load after modules, so an extension's command wins in the returned table and is flagged exactly when the module phase recorded an owner |
| MainLoader.StorageExample | src/azure-cli-core/azure/cli/core/__init__.py:141-146 | `["storage", "list"]` with only the storage module yields `{"storage list"}` owned by `storage`, without a scan |
| MainLoader.ExtensionOverrideExample | src/azure-cli-core/azure/cli/core/__init__.py:109-115 | an extension's `storage list` over the storage module's is flagged as overriding; a second extension replacing the first's non-built-in command is not flagged; ownership is unchanged |
| MainLoader.LoaderArgumentsLastWins | src/azure-cli-core/azure/cli/core/__init__.py:216-219 | outside scope `''`, a scope holds the registrations of the last contributing loader that has it |
| MainLoader.LoaderArgumentsUntouched | src/azure-cli-core/azure/cli/core/__init__.py:216-219 | a scope no contributing loader registers keeps what it had |
| MainLoader.LoaderExtraArgumentsLastWins | src/azure-cli-core/azure/cli/core/__init__.py:216-220 | a command's extra arguments come from the last contributing loader that has them |

## Left out

- `AzCli`, the CLI session object: sessions, configuration, clouds, request
  IDs and progress output are process set-up and I/O.
- Logging, `PerformanceMonitor` timing, `accumulate_time` and the
  telemetry calls. They are observability and have no effect on the
  tables. The scan's list of failed modules stands in for what is
  reported.
- Real imports: `import_module`, `iter_modules`, `sys.path.append` and the
  `get_extension_*` lookups become the input maps and sequences described
  above.
- `load_command_loader` in `azure.cli.core.commands` is not part of this
  model. What it yields per module is an input.
- The version comparison of `profiles.supported_api_version`,
  `get_versioned_sdk_path`, `get_sdk` and `get_models` live in code not
  shown and are function parameters or inputs.
  `AzCommandsLoader.get_sdk` is not modelled.
- knack internals: `ArgumentsContext`, `extract_args_from_signature`,
  `extract_full_summary_from_signature`, the `__doc__` copy, and the
  semantics of `get_cli_argument` and `update_argument`. An override is
  merged into the argument's settings, the override winning.
- Invoking a registered handler (`client_factory`, `op(**command_args)`):
  only the client argument name and the call arguments are modelled.
- Commands and argument types are values, so the in-place tagging of
  command objects and any aliasing between tables holding the same object
  are not captured.
- The `cmd_to_loader_map` that `load_arguments` reads is filled by
  `load_command_loader`, outside this model, and is a parameter.
- A contributing loader's own `load_arguments` call is represented by its
  resulting registries. The base class's `load_arguments` is represented by
  recording the command in `argumentLoads`.
- `MainCommandsLoader._update_command_definitions` does nothing and has no
  member.
- AzCommands.AzCommandsLoader.UpdateCommandDefinitions: reading
  `extra_argument_registry` through the defaultdict inserts an empty entry
  for every command. The model reads the registry without inserting.
- AzCommands.AzCommandsLoader.CommandGroupFor: requires that the call's
  keyword arguments do not contain `command_type`. Python cannot pass it
  twice, because it is a named parameter.
- PyRuntime.Callable: approximates `callable`. Functions and methods are
  callable, and an object is callable when it has a `__call__` attribute.
- PyRuntime.Truthy: approximates truthiness. Objects other than `None`,
  booleans, integers and strings are taken as truthy because they define
  neither `__bool__` nor `__len__`.
- OperationRefs.ApplyDocString: the returned object stands for the one
  whose documentation is copied. The `__doc__` assignment itself is not
  modelled.
- OperationRefs.ImportModule: a relative path such as `".m"` makes
  Python's `import_module` raise TypeError, because no package is given.
  The model treats it as an ordinary dotted path, so it is imported from the
  module map or gives the not-found error. Neither exception is caught in
  `get_op_handler`, so the only difference is which exception escapes.
- PyRuntime.GetAttr: objects carry only attributes whose values are
  objects. String attributes such as `__name__` and `__doc__` are
  represented only by whether the object has a name (`HasName`), and a
  bound method's `__self__` is not modelled.
