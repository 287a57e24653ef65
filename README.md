# allzpark core, modelled in Dafny

Allzpark is an application launcher built on the Rez package manager. This project models the parts of it that are its own deterministic logic rather than GUI wiring or calls into Rez:

- **Application request keys and records** (`RezApi`, rezapi.dfy). This covers:
  - the unique request key `name==version`, prefixed by `alias::context::` for a suite tool;
  - the `RezApp` record, which recovers a suite tool's alias from that key;
  - `find_latest`, which picks the last package of the version-sorted search, and `find_one`, which picks the first hit.
  
  A package is an abstract record. Its version is a sequence of numeric tokens, ordered lexicographically, and this order is proved total, transitive and antisymmetric. The Rez package search is a function parameter that returns the packages it yields, in order.
- **Native environment rollback** (`CliEnviron`, cli_environ.dfy).
  - When the launcher runs inside a resolved Rez context, each environment variable keeps the path segments absent from the resolved context's value for that variable. A segment that both the parent and the context hold is therefore dropped too. A variable with none left is dropped.
  - Both environments are inputs. The loops are methods, proved against the specification functions `KeepAbsent` and `RolledBack`.
- **The configuration module** (`CliConfig`, cli_config.dfy). The `allzparkconfig` module is a class over a map from attribute names to values. Its methods model three start-up steps that update it in place:
  - the user-configuration overlay;
  - the `_`-prefixed backup copies;
  - the rename of the "project" settings to "profile".
- **Log verbosity** (`CliMain`, cli_main.dfy): how the `-v` count maps to a logging level.
- **Resources** (`Resources`, resources.dfy):
  - resource paths with backslashes normalised;
  - the built-in and user palettes;
  - the injection of the resource root under `res`;
  - the stylesheet palette lookup;
  - the pixmap memo table, a class whose `cache` map is updated on a miss.
- **Text** (text.dfy): Python's `str.split` and `str.join` on one character, the search for the first `::` that `split("::", 1)` performs, single-character `str.replace` and `str(n)`, as these modules use them.

## Model

| member | source | states |
|---|---|---|
| Text.IndexOf | allzpark/_rezapi.py:69 | the position of the first `::` in the key, where `split("::", 1)` cuts it, and none exactly when the key has no `::` |
| Text.Split | allzpark/cli.py:187-188 | `str.split` on the path separator yields at least one segment, none holding the separator |
| Text.JoinSplit | allzpark/cli.py:187-195 | joining the split segments with the separator gives back the original value |
| Text.SplitJoin | allzpark/cli.py:195 | splitting a joined list of separator-free segments gives back the list |
| Text.ReplaceChar | allzpark/resources.py:16 | every `\` becomes `/`, every other character is kept, the length is unchanged and no `\` remains |
| RezApi.TokensLeTotal | allzpark/_rezapi.py:40 | any two token sequences compare one way or the other |
| RezApi.TokensLeTransitive | allzpark/_rezapi.py:40 | the token order is transitive |
| RezApi.TokensLeAntisymmetric | allzpark/_rezapi.py:40 | token sequences that compare equal both ways are equal |
| RezApi.VersionLeTotal | allzpark/_rezapi.py:40 | versions are totally ordered, as sorting by version requires |
| RezApi.VersionLeTransitive | allzpark/_rezapi.py:40 | the version order is transitive |
| RezApi.VersionLeAntisymmetric | allzpark/_rezapi.py:40 | versions that compare equal both ways are the same version |
| RezApi.VersionString | allzpark/_rezapi.py:55 | the rendered version contains no `:`, so it cannot create a `::` in a key |
| RezApi.IsFromSuite | allzpark/_rezapi.py:50-51 | the value is nothing without a context, and otherwise the context's suite context name, which is itself nothing exactly when the context names none |
| RezApi.InSuiteNeedsSuiteName | allzpark/_rezapi.py:50-51 | a package counts as a suite package exactly when it has a context naming a non-empty suite context |
| RezApi.UniRequestKey | allzpark/_rezapi.py:54-61 | the key always ends with `name==version`; without a tool entry it is exactly that; with one, the text before it is `alias::context::` |
| RezApi.NewRezApp | allzpark/_rezapi.py:66-92 | it fails with ValueError exactly when a suite package's key has no `::`; the package and request key are kept; `is_suite_tool()` gives the value `is_from_suite` gave (the suite context name or nothing), truthy exactly for a suite package; a suite tool's only tool is the key's text before its first `::`; otherwise the tools are the declared non-empty tools, or `[name]` |
| RezApi.RequestKeyRoundTrip | allzpark/_rezapi.py:54-77 | for a suite package, building the record from `uni_request_key(pkg, entry)` yields exactly one tool, the entry's alias, and records the key as the request, provided the alias has no `::` and does not end in `:` |
| RezApi.RoundTripLosesTrailingColon | allzpark/_rezapi.py:57-70 | the alias `a:` gives the key `a:::c::n==1`, which splits at its first `::` and yields the tool `a` |
| RezApi.SuiteKeyNeedsToolEntry | allzpark/_rezapi.py:55-69 | a suite package keyed without a tool entry (name without `:`) fails with ValueError |
| RezApi.InsertByVersion | allzpark/_rezapi.py:40 | a stable insertion adds exactly the one package: a permutation of the input plus it |
| RezApi.SortByVersion | allzpark/_rezapi.py:40 | sorting is a permutation of the search results |
| RezApi.InsertKeepsSorted | allzpark/_rezapi.py:40 | inserting into a version-sorted sequence keeps it sorted |
| RezApi.SortIsSorted | allzpark/_rezapi.py:40 | the sorted search is in non-decreasing version order |
| RezApi.LatestIsLastOfHighest | allzpark/_rezapi.py:40-43 | the package `Latest` picks (the last of the stable version sort, `SortByVersion`) has the highest version and is the last found among those of that version |
| RezApi.FindLatest | allzpark/_rezapi.py:38-47 | the result is PackageNotFound("package family not found: " + name) exactly when the search is empty; otherwise it is a found package whose version is at least every found package's, and the last found among those of the highest version |
| RezApi.FindLatestIgnoresPaths | allzpark/_rezapi.py:38-39 | the result does not depend on the `paths` argument, which never reaches the search |
| RezApi.FindOne | allzpark/_rezapi.py:34-35 | the result is the first package the search yields with `paths`, and StopIteration exactly when it yields none |
| CliEnviron.KeepAbsentMembers | allzpark/cli.py:189-192 | a segment is kept exactly when it is one of the launcher's segments and not in the history's segments |
| CliEnviron.KeepAbsentCounts | allzpark/cli.py:189-192 | every kept segment keeps its number of occurrences, and history segments keep none |
| CliEnviron.KeepAbsentAppend | allzpark/cli.py:189-192 | the filter commutes with concatenation, so kept segments keep their order |
| CliEnviron.KeepAbsentNone | allzpark/cli.py:188-192 | with no segment in the history, every segment is kept |
| CliEnviron.RollbackPaths | allzpark/cli.py:189-192 | the loop appends exactly the launcher's segments absent from the history, in order |
| CliEnviron.RollbackEnviron | allzpark/cli.py:183-197 | the loop over the launcher's environment (`changed`, a copy of `os.environ`) builds exactly the rolled-back map, whose keys are keys of that environment; each value is the kept segments joined with the separator (`Join`, `os.pathsep.join`) |
| CliEnviron.RolledBackKeys | allzpark/cli.py:189-195 | a variable is in the result exactly when some segment of its value in the launcher's environment is missing from the history's segments |
| CliEnviron.RolledBackValue | allzpark/cli.py:187-195 | a result value splits into exactly the launcher's segments absent from the history, in order and with repetitions |
| CliEnviron.RolledBackKeepsNewVariable | allzpark/cli.py:188 | a variable the history lacks, compared against `[""]`, is kept whole when it has no empty segment |
| CliEnviron.ResolveNativeEnviron | allzpark/cli.py:159-197 | if the parent environment is not inherited, the shell environment (an absent `inherit_parent_environment` setting counts as inherited, `InheritsParent`); otherwise, with no context file set, nothing; otherwise the rolled-back environment |
| CliConfig.Overlay | allzpark/cli.py:39-48 | only existing non-dunder attributes that the user module defines take the user's value; no attribute is added and all others are unchanged |
| CliConfig.OverlayIdempotent | allzpark/cli.py:39-48 | loading the same user configuration twice changes nothing more |
| CliConfig.ConfigModule.LoadUserConfig | allzpark/cli.py:29-48 | an `IOError` raised while opening, reading or running the file is raised again; any other exception becomes UserError("Better double-check your user config"); both leave the module unchanged; otherwise the module becomes the overlay |
| CliConfig.Patched | allzpark/cli.py:69-74 | the backups add attributes and remove none |
| CliConfig.BackupNamesFresh | allzpark/cli.py:73 | the backup name of a member differs from every earlier member's |
| CliConfig.ShadowerNotShadowed | allzpark/cli.py:69-74 | a member whose backup name is a later non-dunder member has not itself been overwritten before its turn (it would otherwise start with `__`) |
| CliConfig.PatchedBackups | allzpark/cli.py:69-74 | after the backups, each non-dunder member that is not itself an earlier member's backup name has `_m` equal to its value before; a member that is such a backup name gets the earlier member's value under its own `_` name; every attribute that is not a backup name is unchanged |
| CliConfig.BackupsKeepOriginals | allzpark/cli.py:62-74 | when no backup name is already an attribute, every non-dunder member `m` ends with `_m` equal to its value before the call |
| CliConfig.ShadowedBackupExample | allzpark/cli.py:69-74 | with members `X` and `_X`, listed in that order, `__X` receives the value of `X`, not that of `_X` |
| CliConfig.ConfigModule.PatchBackups | allzpark/cli.py:62-74 | the loop over the members leaves the module equal to the backed-up configuration |
| CliConfig.Renamed | allzpark/cli.py:53-59 | `profiles` takes `projects` and `startup_profile` takes `startup_project`, each only when the old name exists; nothing else changes or is added |
| CliConfig.RenamedIdempotent | allzpark/cli.py:53-59 | running the rename shim twice changes nothing more |
| CliConfig.ConfigModule.BackwardsCompatibility | allzpark/cli.py:53-59 | the module becomes the renamed configuration |
| CliMain.EffectiveVerbosity | allzpark/cli.py:278 | a session without a console forces the `-v` count to 3; otherwise it is unchanged |
| CliMain.LogLevel | allzpark/cli.py:300-304 | DEBUG exactly when verbose ≥ 2, INFO exactly when it is 1, WARNING exactly when it is 0 |
| CliMain.LogLevelMonotonic | allzpark/cli.py:300-304 | more `-v` flags never raise the level |
| CliMain.ConsolelessSessionLogsDebug | allzpark/cli.py:278-304 | a session without a console logs at DEBUG |
| Resources.Find | allzpark/resources.py:13-16 | the path holds no backslash and is, character by character, the normalised path `<dirname>/resources/<paths>` with each backslash turned into `/`; the path is joined by `PathJoinAll`, POSIX `os.path.join` (`PathJoin`: an absolute part replaces what precedes it, and `/` is inserted unless the path so far is empty or already ends with one) |
| Resources.ReplaceBackslashesIdempotent | allzpark/resources.py:16 | normalising slashes twice changes nothing more |
| Resources.ResourceRoot | allzpark/resources.py:44 | the root is `<dirname>/resources`, joined by `PathJoin` but not normalised, character by character with each backslash turned into `/`, so none remains |
| Resources.ResourceRootUnderDirname | allzpark/resources.py:44 | for a directory without backslashes or a trailing `/`, the root is exactly the directory followed by `/resources` |
| Resources.BuiltinPalettesShareRoles | allzpark/resources.py:58-84 | the built-ins are exactly `dark` and `light`, with the same colour roles and no `res` role |
| Resources.LoadPalettes | allzpark/resources.py:57-88 | the names are `dark`, `light` and the user's; a user palette replaces the whole built-in palette; other built-ins stay; an empty user setting gives exactly the built-ins |
| Resources.InjectResourceRoot | allzpark/resources.py:44-46 | every palette gains `res` set to the resource root, and no other role or palette changes |
| Resources.LoadStyle | allzpark/resources.py:40-49 | an unknown palette name is KeyError(name); otherwise the chosen palette with `res` injected |
| Resources.PixmapCache.constructor | allzpark/resources.py:6 | the cache starts empty |
| Resources.PixmapCache.Get | allzpark/resources.py:19-33 | no path parts is IndexError; a hit returns the cached object and leaves the cache alone; a miss builds one new pixmap and adds exactly that entry; the pixmap is always built from `find(*paths)` |

## Left out

- `main()` in allzpark/cli.py is not modelled beyond the `-v` handling. Argument parsing, redirection of the standard streams, logging handlers, settings persistence, the Qt application and signal and exception hooks are I/O and GUI start-up.
- The order in which `main()` calls `_patch_allzparkconfig`, `_load_userconfig` and `_backwards_compatibility` is not modelled. Each is a separate method of `CliConfig.ConfigModule`.
- The fallback `native_environ = res or os.environ.copy()` in `main()` is not modelled. `ResolveNativeEnviron` returns what `_resolve_native_environ` returns.
- `timings`, `tell` and `warn` are not modelled: they are wall-clock timing, console output and process exit.
- `_find_rez_bin_in_context` and `_patch_rez_bin_path` are not modelled: they are directory walks and patches to Rez's internals.
- Loading the resolved context and reading its environment are not modelled. So are the shell's own environment, `os.environ` and the `rez_tools_visibility` toggle: these are calls into Rez and the operating system. The two environments, the context-file variable, the `inherit_parent_environment` setting and `os.pathsep` are inputs.
- CliConfig.ConfigModule.LoadUserConfig: exceptions that are not an `Exception` (`SystemExit` or `KeyboardInterrupt` raised by the script) escape both handlers and are not modelled; nor is `main()` silently ignoring the re-raised `IOError`.
- CliConfig.ConfigModule.LoadUserConfig: choosing the file name from the argument, `ALLZPARK_CONFIG_FILE` or the home directory is not modelled. Nor are reading and running the file, the `__file__` entry (a dunder name the overlay skips anyway) or the returned file name. The outcome of running the file is an input, either the module's names or the failure.
- `dir()` is not modelled: its listing of the configuration module, in sorted order, is an input `names`.
- `os.path.join` is modelled with POSIX rules only. Windows separators and drive letters are not modelled.
- `os.path.normpath` is not modelled: it is a function parameter of `Find` and of `PixmapCache`.
- `px` is not modelled: it is floating-point scaling.
- Reading `style.css`, the `%`-formatting of the stylesheet and `_load_fonts` are not modelled: they are file and font-database I/O. `Resources.LoadStyle` returns the palette the stylesheet would be formatted with.
- `icon` is not modelled: it only wraps a pixmap in a Qt icon.
- The unused `.png`-suffixed path in `pixmap` is not modelled: nothing reads it.
- The toolkit pixmap is an opaque object that records only the path it was built from.
- Resources.InjectResourceRoot returns new palette maps. The source writes `res` into the palette dictionaries in place, so a user palette object shared elsewhere would also change; that aliasing is not modelled.
- `allzparkconfig.palettes` is a map, where an empty map stands for every falsy setting, `None` included.
- RezApi.VersionString renders numeric tokens joined by `.`. Rez versions keep their original text and have alphanumeric tokens and separators other than `.`. The contract relies only on a rendered version having no `:`.
- RezApi.RequestKeyRoundTrip is weaker than the plain statement "an alias without `::` round-trips": it also requires the alias not to end in `:`, since the key's first `::` would then fall inside the alias (see `RoundTripLosesTrailingColon`).
- CliConfig.BackupsKeepOriginals is weaker than "every member `m` gets `_m` equal to its old value": it requires that no backup name is already an attribute. Otherwise a member `_m` listed after `m` has already been overwritten when its own turn comes, and `PatchedBackups` states what happens then.
- `RezApp.__repr__` is not modelled: it only formats the key for display.
- The names `_rezapi.py` re-exports from Rez (`env`, `find`, `copy_package`, `Suite`, the exception classes, `clear_caches` and the others) are not modelled: they are thin wrappers over a library that is not part of this model.
- allzpark/delegates.py and tests/util.py are not part of this model: they are a Qt item delegate and a test event loop.
