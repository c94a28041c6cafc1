# econf option registry, modelled in Dafny

econf lets a program declare named options in sections (with a default,
a required flag and optional command-line exposure). It resolves each
option from three tiers: the command line, an INI configuration file,
and a default. This project models the registry and its resolution
engine in both versions of the library:

- `econf/__init__.py` (module `Econf`, file `econf.dfy`), the current
  version. It covers:
  - typed options (`str`, `int`, BoolOpt's `en_bool`) and `define`;
  - the three-tier `_get`, followed by the option's converter;
  - `options(section)`, in insertion order;
  - `__call__`, with its configuration-path choice and the required-option audit;
  - option groups declared as `BaseConf` subclasses (ConfMeta's registration, `BaseConf.get` and `BaseConf.options`).
- `econf.py` (module `EconfLegacy`, file `econf_legacy.dfy`), the older
  version. It stores untyped strings, and only truthy values count in its lookup.

Shared pieces:

- `common.dfy` (module `Common`): option keys, file entries, the exceptions
  raised, and how a pair's optparse destination and long option are named.
- `python.dfy` (module `Python`): the Python values involved, `str()`,
  truthiness, and the decimal `int()`/`str()` of integers.

Each version has two layers:

- Pure functions over a `Registry` value. Lemmas about the functions state
  precedence, last-declaration-wins, file loading, the audit and path
  selection.
- A `Config` class whose fields are the registry's state. Each method is
  proved to move the state exactly as the matching function does.

Failures are values (`Result`/`Outcome` carrying an `Error`), not
preconditions. This covers optparse refusing a duplicate or malformed long
option, which raises before anything changes.

Where the code and the library's documentation differ, the model follows
the code:

- In the current version, `--conf` beats the `default_conf` argument
  (`econf/__init__.py:137`), although the method's docstring
  (`econf/__init__.py:129-132`) lists the argument first.
- In the current version, an empty command-line value or an empty stored
  value is returned, not skipped: the checks are `is not None` and
  `is not UNSET` (`econf/__init__.py:234`, `:239`). The older version does
  skip them: its tests are truthiness tests (`econf.py:154`, `:159`).
- The older version's required-option check fails with UnsetOption, never
  with the assertion (lemma `EconfLegacy.RequiredFailsOnlyUnset`).

## Model

| member | source | states |
|---|---|---|
| Python.ParseInt | econf/__init__.py:56-58 | `int()` of a string accepts only an optional sign followed by digits |
| Python.IntToStringRoundTrip | econf/__init__.py:178-181 | `int(str(i)) == i` for every integer, so an int default stored as a string reads back unchanged |
| Python.Truthy | econf/__init__.py:148 | `bool(v)`: false exactly for `''`, `0`, `False` and `None` |
| Python.Str | econf/__init__.py:181 | `str(v)`: a string is itself, an int's text parses back to it, a bool gives `True` exactly when true, and only `''` gives the empty string |
| Common.SectionName | econf/__init__.py:165 | an omitted or empty section is DEFAULT; any other section name is kept |
| Common.FlagName | econf/__init__.py:191-194 | the destination is the option itself exactly when the section upper-cases to DEFAULT; otherwise it is the lower-cased section, `_`, then the option |
| Common.FlagNameShape | econf/__init__.py:191-194 | a destination ends with the option name and, outside DEFAULT, starts with the lower-cased section and `_` |
| Common.FirstFailure | econf/__init__.py:147-149 | a run of checks that stops at the first failure reports one of the checks' failures, and passes when there is no check |
| Common.FirstFailurePassesIff | econf/__init__.py:147-149 | a run of checks that stops at the first failure passes iff every check passes |
| Common.FirstFailureIsFirst | econf/__init__.py:147-149 | a failing run reports the failure of its first failing check, and every earlier check passed |
| Common.LongOption | econf/__init__.py:169 | the long option is `--` followed by the destination with each `_` turned into `-`, character by character |
| Common.FlagCheck | econf/__init__.py:169-171 | optparse accepts a long option exactly when it is `--` plus a non-dash and is not yet registered |
| Common.FlagDeterminesOption | econf/__init__.py:191-194 | within one section, equal destinations mean equal option names |
| Common.FlagNamesCollide | econf/__init__.py:191-194 | different pairs can share a destination (`db`/`pool_size` vs `db_pool`/`size`; section case; `default` vs `DEFAULT`) |
| Common.LongOptionsCollide | econf/__init__.py:169 | `db_pool` and `db-pool` request the same long option |
| Econf.Empty | econf/__init__.py:102-113 | a new registry is well formed: nothing declared, `--help`, `--conf` and `--version` registered, no parse yet |
| Econf.EnBool | econf/__init__.py:63-69 | a string is true iff it is one of `True`, `true`, `T`, `t`; any other value has its own truth value |
| Econf.IntOf | econf/__init__.py:56-58 | `int()` of a string succeeds exactly when it parses, with the parsed value; an int is returned unchanged; a bool becomes 1 or 0; `None` raises |
| Econf.Convert | econf/__init__.py:51-70 | the converter's result: `str` gives `str(v)`, `int` gives exactly `int(v)` (its value or its error, the only error), `en_bool` the bool `en_bool` gives |
| Econf.ConvertIdempotent | econf/__init__.py:51-70 | applying a converter to its own result changes nothing |
| Econf.StoredDefaultReadsBack | econf/__init__.py:178-181 | converting the stored `str(default)` equals converting the default, for StrOpt, IntOpt with int/str defaults and BoolOpt with bool/str defaults |
| Econf.BoolOptIntDefaultReadsFalse | econf/__init__.py:61-70 | a BoolOpt with an int default reads false, although `bool(i)` may be true |
| Econf.StoredDefault | econf/__init__.py:181 | the stored value is the UNSET sentinel exactly when no default was given |
| Econf.Declare | econf/__init__.py:151-183 | define fails exactly when optparse refuses the long option, and then reports optparse's error; on success it sets the pair's converter and `str(default)`, appends to required if asked, registers the flag, leaves every other pair alone and keeps the registry well formed |
| Econf.RedeclaredFlagConflicts | econf/__init__.py:167-171 | defining the same command-line option twice fails with a conflict |
| Econf.CmdValue | econf/__init__.py:233 | before the first parse there is no command-line value |
| Econf.RawGet | econf/__init__.py:216-247 | tier 1 wins when the destination has a value; UndefinedOption exactly when there is no tier-1 value and the pair was never stored; a stored string is returned as is; a stored UNSET gives the call-time default unchanged when one is given, and UnsetOption exactly when none is |
| Econf.ConverterOf | econf/__init__.py:212 | the converter recorded for the pair, and `str` when none is |
| Econf.Get | econf/__init__.py:210-214 | `_get`'s errors pass through unchanged; a value `_get` returns goes through the pair's recorded converter (`str` when none is recorded); the only other error is a failed `int()` |
| Econf.CommandLineWins | econf/__init__.py:231-235 | with a tier-1 value, neither the store nor the call-time default affects the result |
| Econf.SharedFlagSharesValue | econf/__init__.py:232-235 | two pairs with the same destination read the same command-line value |
| Econf.ConfOptionReadsConfigPath | econf/__init__.py:107-109 | the DEFAULT option `conf` reads the `--conf` path, declared or not |
| Econf.DeclaredOptionResolves | econf/__init__.py:210-247 | right after define, without a tier-1 value, get returns the converted declared default, else the converted call-time default, else UnsetOption |
| Econf.RedeclareLastWins | econf/__init__.py:172-181 | defining a pair twice resolves every lookup like defining it once with the second declaration |
| Econf.OptionNames | econf/__init__.py:249-253 | a name is listed iff its pair in that section is stored |
| Econf.Options | econf/__init__.py:249-253 | DEFAULT always answers; any other section raises iff it holds no pair; the answer lists exactly the section's option names |
| Econf.DeclareKeepsOptionOrder | econf/__init__.py:172-181 | a new pair is appended to its section's option list; a redefinition leaves the order unchanged |
| Econf.Load | econf/__init__.py:123-124 | reading a file changes only stored values and never removes a pair |
| Econf.LoadPreservesWf | econf/__init__.py:123-124 | reading a file keeps the registry well formed |
| Econf.LoadLastEntryWins | econf/__init__.py:123-124 | after a file is read, a pair holds the value of its last entry |
| Econf.LoadLeavesOthers | econf/__init__.py:123-124 | pairs the file does not mention keep their values |
| Econf.ConfigPath | econf/__init__.py:137 | a non-empty `--conf` is used; otherwise the `default_conf` argument |
| Econf.CheckOne | econf/__init__.py:148-149 | a required pair passes iff get succeeds with a truthy value; get's exception is reported as is, and a falsy value fails the assertion |
| Econf.AuditFrom | econf/__init__.py:146-149 | a failing audit reports the failure of one of the required pairs |
| Econf.AuditPassesIff | econf/__init__.py:146-149 | the audit passes iff every required pair passes |
| Econf.AuditReportsFirstFailure | econf/__init__.py:146-149 | a failing audit reports the first failing pair's error, and every earlier pair passed |
| Econf.RequiredNeverUndefined | econf/__init__.py:146-149 | a required pair fails only with UnsetOption, a failed `int()` or the assertion, never UndefinedOption |
| Econf.Prepare | econf/__init__.py:135-142 | records the parse; loads exactly the chosen file when it is usable and changes nothing else otherwise; keeps the registry well formed |
| Econf.Resolve | econf/__init__.py:126-149 | the state is Prepare's; without auditing the call passes; with auditing it passes iff every required pair passes |
| Econf.UnsetPairFails | econf/__init__.py:237-247 | a stored UNSET pair without a command-line value fails its check with UnsetOption |
| Econf.RequiredWithoutValueFails | econf/__init__.py:146-149 | a required pair with no default, no command-line value and no file makes the audit fail |
| Econf.RequiredSatisfiedByFile | econf/__init__.py:137-149 | a required str pair whose last entry in the chosen file is non-empty passes its check |
| Econf.PortDeclares | econf/__init__.py:307-310 | declaring an IntOpt `port` with default 9090 on the command line succeeds and stores `"9090"` with the `int` converter |
| Econf.PortReadsDefault | econf/__init__.py:307-310 | after a parse without `--port`, `port` reads 9090 |
| Econf.PortReadsCommandLine | econf/__init__.py:307-310 | after `--port` with the decimal text of any integer `n`, `port` reads `n` |
| Econf.DefaultIntOptReads | econf/__init__.py:210-247 | an int option of DEFAULT whose answering tier holds `str(n)` reads `n` |
| Econf.Named | econf/__init__.py:295-296 | an option without a name takes its attribute's name; every other field is unchanged |
| Econf.DeclareOpt | econf/__init__.py:185-189 | add_opt is define with the descriptor's fields, and a nameless descriptor fails define's string assertion |
| Econf.RegisterAll | econf/__init__.py:289-298 | registering a group keeps the registry well formed and the parse unchanged, never drops a required pair or a long option, fails only with optparse's refusal, and always succeeds for a group without command-line options |
| Econf.RegisterAllRecords | econf/__init__.py:289-298 | after a successful registration, each required attribute's pair is on the required list and each command-line attribute's long option is registered |
| Econf.RegisterAllLeavesOthers | econf/__init__.py:289-298 | registering a group touches only the group's own pairs |
| Econf.RegisterAllLastWins | econf/__init__.py:289-298 | each pair carries the converter and default of the last attribute registered under its name |
| Econf.RegisterAllStoresEach | econf/__init__.py:289-298 | every attribute's pair is stored after a successful registration |
| Econf.GroupGet | econf/__init__.py:335-338 | reading through a group is `get` under the group's section, DEFAULT when the group names none; its lookup errors name that section and the option |
| Econf.GroupOptions | econf/__init__.py:340-343 | a group without a section lists DEFAULT's options; a group with another section raises iff that section holds no pair; the answer lists exactly the section's option names |
| Econf.GroupAttributeResolves | econf/__init__.py:335-338 | reading an attribute through its group without a tier-1 value gives its own converted default, or UnsetOption |
| Econf.GroupListsItsOptions | econf/__init__.py:340-343 | a registered group's options list contains every one of its option names |
| Econf.Config.constructor | econf/__init__.py:102-113 | the new object's state is the empty registry |
| Econf.Config.Define | econf/__init__.py:151-183 | the method changes the state exactly as Declare does, or leaves it unchanged and reports Declare's error |
| Econf.Config.AddOpt | econf/__init__.py:185-189 | the method changes the state exactly as DeclareOpt does |
| Econf.Config.RegisterGroup | econf/__init__.py:289-298 | the method's state and outcome are RegisterAll's |
| Econf.Config.LoadFile | econf/__init__.py:123-124 | the new state is Load of the old state |
| Econf.Config.PutEntry | econf/__init__.py:124 | setting one file entry moves the state exactly as Put does |
| Econf.Config.CheckRequired | econf/__init__.py:146-149 | the loop's outcome is the audit's |
| Econf.Config.Call | econf/__init__.py:126-149 | the method's state and outcome are Resolve's |
| EconfLegacy.Empty | econf.py:55-62 | a new registry is well formed: nothing declared, `--help` and `--conf` registered, no parse yet |
| EconfLegacy.StoredDefault | econf.py:127 | a falsy or missing default is stored as the empty string; a truthy one as `str(default)` |
| EconfLegacy.Declare | econf.py:101-129 | define fails exactly when optparse refuses the long option; on success it stores the pair's value, appends to required if asked, registers the flag, leaves every other pair alone and keeps the registry well formed |
| EconfLegacy.CmdValue | econf.py:153-155 | a tier-1 value counts only when it is non-empty, and there is none before the first parse |
| EconfLegacy.Get | econf.py:136-167 | a truthy command-line value wins; UndefinedOption exactly when there is none and the pair is not stored; a non-empty stored value comes next; an empty stored value gives the call-time default unchanged when one is given, and UnsetOption exactly when none is; a falsy result can only be the caller's default |
| EconfLegacy.DeclaredOptionResolves | econf.py:136-167 | right after define, without a tier-1 value, get returns the truthy declared default as a string, else the call-time default, else UnsetOption |
| EconfLegacy.FalsyDefaultIsNoDefault | econf.py:127 | declaring a falsy default reads exactly like declaring none |
| EconfLegacy.Load | econf.py:73-74 | reading a file changes only stored values, never removes a pair, and keeps the registry well formed |
| EconfLegacy.LoadLastEntryWins | econf.py:73-74 | after a file is read, a pair holds the value of its last entry |
| EconfLegacy.LoadLeavesOthers | econf.py:73-74 | pairs the file does not mention keep their values |
| EconfLegacy.ConfigPath | econf.py:87 | a non-empty `config_file` argument is used; otherwise `--conf` whenever it was given |
| EconfLegacy.CheckOne | econf.py:97-99 | a required pair passes iff get succeeds with a truthy value; get's exception is reported as is, and a falsy value fails the assertion |
| EconfLegacy.AuditPassesIff | econf.py:96-99 | the audit passes iff every required pair passes |
| EconfLegacy.AuditReportsFirstFailure | econf.py:96-99 | a failing audit reports the first failing pair's error, and every earlier pair passed |
| EconfLegacy.RequiredFailsOnlyUnset | econf.py:97-99 | a required pair passes iff it has a truthy command-line value or a non-empty stored value; otherwise it fails with UnsetOption |
| EconfLegacy.AuditFailsOnlyUnset | econf.py:96-99 | a failing audit always reports UnsetOption for one of the required pairs, never the assertion |
| EconfLegacy.Resolve | econf.py:76-99 | records the parse and, with a usable file, loads exactly that file; keeps the registry well formed; with auditing, passes iff every required pair passes |
| EconfLegacy.ResolveAsWritten | econf.py:85-92 | any usable path makes the call fail with the missing-argument TypeError and leaves the file unread; otherwise it agrees with Resolve |
| EconfLegacy.FileValueVisible | econf.py:87-92 | once the file is actually read, a non-empty last entry that the command line does not override is what get returns |
| EconfLegacy.MissingArgumentExample | econf.py:92 | a `port` set in an existing file: the code as written fails, and the corrected call reads `8080` |
| EconfLegacy.PathPrecedenceReversed | econf.py:87 | this version takes the argument over `--conf`, where the current version takes `--conf` over the argument |
| EconfLegacy.EmptyCommandLineValueDiffers | econf.py:153-160 | an empty command-line value falls through to the stored value here, and is returned as is by the current version |
| EconfLegacy.FalsyDefaultStoredDifferently | econf.py:127 | defaults `0` and `False` are stored as `''` here, and as `"0"` and `"False"` by the current version |
| EconfLegacy.Config.constructor | econf.py:55-62 | the new object's state is the empty registry |
| EconfLegacy.Config.Define | econf.py:101-129 | the method changes the state exactly as Declare does, or leaves it unchanged and reports Declare's error |
| EconfLegacy.Config.ParseCmdline | econf.py:64-71 | only the parsed command line changes |
| EconfLegacy.Config.ParseConfFile | econf.py:73-74 | the new state is Load of the old state |
| EconfLegacy.Config.CheckRequired | econf.py:96-99 | the loop's outcome is the audit's |
| EconfLegacy.Config.Call | econf.py:76-99 | the method's state and outcome are those of the corrected Resolve |

## Left out

- Command-line parsing is not modelled: optparse's parse is an input
  `parsed` (destination to value). Also left out: exit on unknown
  arguments, `--help` and `--version` output, short options `-f`/`-v`, and
  parsed-values attributes that are methods (such as `ensure_value`).
- File I/O is not modelled: a file is the list of entries ConfigParser
  would read from it, and the file system is the map `fs` of existing paths.
  `warnings.warn` on a missing file has no effect in the model.
- ConfigParser internals are not modelled: DEFAULT-section fallback for
  other sections, lower-casing of option names, `%` interpolation on read,
  and a file section header with no entries (which would make `options` of
  that section return an empty list instead of raising).
- Econf.Declare: does not model the ValueError `ConfigParser.set` raises
  for a default whose text holds a bare `%` (such as `"50%"`), raised after
  the long option, the section and the converter are already registered;
  the model stores the text and succeeds. The same holds for
  EconfLegacy.Declare.
- Econf.Load: does not model the DuplicateOptionError and
  DuplicateSectionError a strict ConfigParser raises when one file repeats a
  pair or a section; the model lets the last entry win. The same holds for
  EconfLegacy.Load.
- Defaults of types other than str, int, bool and None (a float, a list)
  have no counterpart in the model's Python values.
- Int conversion: `int()` beyond an optional sign and ASCII digits
  (whitespace, underscores, non-ASCII digits) is not modelled.
- Case mapping: `upper()`/`lower()` are ASCII-only.
- `define`'s `type` is limited to the three converters the typed options
  use; arbitrary callables are not modelled. `help` is not modelled.
- `__getattr__` and its SubSection proxy, `BaseOpt.__get__` attribute
  access, section inheritance through `getattr(cls, '__section__')`, and
  descriptor names shared through aliasing are not modelled.
  Group lookups go through `GroupGet`/`GroupOptions` with the group's own
  section.
- `setup_logging`, `dump` and the `version` property (logging and display
  only) are not modelled.
- The process-wide `CONF` instance (`econf/__init__.py:286`) and the
  `DefaultConf` group it registers at import (`log_level` and `debug`, both on
  the command line, `econf/__init__.py:346-350`) are not modelled: the model
  starts from a fresh `Config()`, and such a group is one `RegisterAll` away.
- The `__main__` demonstration at the end of `econf.py` and `setup.py`
  (packaging metadata) are not modelled.
- Assertions are not modelled as stripped under `python -O`.

## Findings

| source | as written | input that shows it | evidently intended | confidence | as-written member | corrected member |
|---|---|---|---|---|---|---|
| econf.py:92 | `__call__` calls `parse_conf_file` without the path that method requires | `config_file="app.conf"`, an existing file: the call raises TypeError and the file is never read | read the chosen file, as the current version does | high (not executed) | EconfLegacy.ResolveAsWritten | EconfLegacy.Resolve |
