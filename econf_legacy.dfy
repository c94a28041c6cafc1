/** The earlier single-file registry (econf.py): untyped options declared into
    sections and stored as strings, a three-tier lookup in which only truthy
    values count, and start-up resolution with a required-option audit. */
module EconfLegacy {
  import opened Python
  import opened Common
  import Econf

  /** The long options optparse holds before any `define`: `--help` (added by
      OptionParser itself) and `--conf` (added by `Config.__init__`). */
  const BuiltinFlags: set<string> := {"--help", "--conf"}

  /** The arguments of `define` that matter here: `type_` is accepted and never
      used, and `help` is display-only. */
  datatype Decl = Decl(option: string, section: Option<string>, default: Option<PyVal>,
                       cmdline: bool, required: bool)

  /** The state of a `Config`: the ConfigParser store (every value a string),
      the required list, the long options registered with optparse, and the
      parsed command line (`None` before the first `__call__`), keyed by
      optparse destination. */
  datatype Registry = Registry(
    store: map<Key, string>,
    required: seq<Key>,
    flags: set<string>,
    cmd: Option<map<string, string>>)

  /** What every reachable state satisfies. */
  ghost predicate Wf(reg: Registry)
  {
    && (forall k :: k in reg.required ==> k in reg.store && k.0 != "")
    && BuiltinFlags <= reg.flags
  }

  /** A freshly constructed `Config`. */
  function Empty(): (reg: Registry)
    ensures Wf(reg)
  {
    Registry(map[], [], BuiltinFlags, None)
  }

  // ---------------------------------------------------------------------------
  // define

  /** `str(default or '')`: a falsy default is stored as the empty string. */
  function StoredDefault(default: Option<PyVal>): (s: string)
    ensures s == "" <==> default.None? || !Truthy(default.value) || Str(default.value) == ""
    ensures default.Some? && Truthy(default.value) ==> s == Str(default.value)
  {
    if default.Some? && Truthy(default.value) then Str(default.value) else ""
  }

  function DeclKey(d: Decl): Key
  {
    (SectionName(d.section), d.option)
  }

  /** The long option a command-line declaration registers. */
  function DeclFlag(d: Decl): string
  {
    LongOption(FlagName(SectionName(d.section), d.option))
  }

  /** `define`: optparse may refuse the long option first, and then nothing
      changes; otherwise the pair's stored value is overwritten, the pair is
      appended to the required list when required, and no other pair changes. */
  function Declare(reg: Registry, d: Decl): (r: Result<Registry, Error>)
    ensures r.Ok? <==> !d.cmdline || FlagCheck(reg.flags, DeclFlag(d)) == Pass
    ensures r.Err? ==> r.error == FlagCheck(reg.flags, DeclFlag(d)).error
    ensures r.Ok? ==>
              && DeclKey(d) in r.value.store && r.value.store[DeclKey(d)] == StoredDefault(d.default)
              && (forall k :: k != DeclKey(d) ==> (k in r.value.store <==> k in reg.store))
              && (forall k :: k != DeclKey(d) && k in reg.store ==> r.value.store[k] == reg.store[k])
              && r.value.required == reg.required + (if d.required then [DeclKey(d)] else [])
              && r.value.flags == reg.flags + (if d.cmdline then {DeclFlag(d)} else {})
              && r.value.cmd == reg.cmd
    ensures r.Ok? && Wf(reg) ==> Wf(r.value)
  {
    var key := DeclKey(d);
    if d.cmdline && FlagCheck(reg.flags, DeclFlag(d)).Fail? then
      Err(FlagCheck(reg.flags, DeclFlag(d)).error)
    else
      Ok(reg.(store := reg.store[key := StoredDefault(d.default)],
              required := if d.required then reg.required + [key] else reg.required,
              flags := if d.cmdline then reg.flags + {DeclFlag(d)} else reg.flags))
  }

  // ---------------------------------------------------------------------------
  // get

  /** Tier 1: the value optparse parsed for a destination, when it is truthy
      (a non-empty string). Before any parse there is none. */
  function CmdValue(reg: Registry, flag: string): (v: Option<string>)
    ensures v.Some? ==> v.value != ""
    ensures reg.cmd.None? ==> v.None?
  {
    if reg.cmd.Some? && flag in reg.cmd.value && reg.cmd.value[flag] != "" then Some(reg.cmd.value[flag])
    else None
  }

  /** `get`: a truthy command-line value, else a non-empty stored value, else
      the caller's default, else UnsetOption; a pair that was never stored is
      UndefinedOption unless the command line answered. No converter applies. */
  function Get(reg: Registry, option: string, section: Option<string>, default: Option<PyVal>): (r: Result<PyVal, Error>)
    ensures var s := SectionName(section);
            CmdValue(reg, FlagName(s, option)).Some? ==> r == Ok(PStr(CmdValue(reg, FlagName(s, option)).value))
    ensures var s := SectionName(section);
            r == Err(UndefinedOption(s, option)) <==>
              CmdValue(reg, FlagName(s, option)).None? && (s, option) !in reg.store
    ensures var s := SectionName(section);
            r == Err(UnsetOption(s, option)) <==>
              && CmdValue(reg, FlagName(s, option)).None?
              && (s, option) in reg.store && reg.store[(s, option)] == ""
              && default.None?
    ensures var s := SectionName(section);
            CmdValue(reg, FlagName(s, option)).None? && (s, option) in reg.store && reg.store[(s, option)] != "" ==>
              r == Ok(PStr(reg.store[(s, option)]))
    ensures var s := SectionName(section);
            && CmdValue(reg, FlagName(s, option)).None?
            && (s, option) in reg.store && reg.store[(s, option)] == ""
            && default.Some? ==>
              r == Ok(default.value)
    ensures r.Err? ==> r.error.UndefinedOption? || r.error.UnsetOption?
    ensures r.Ok? && !Truthy(r.value) ==> default == Some(r.value)
  {
    var s := SectionName(section);
    var key := (s, option);
    match CmdValue(reg, FlagName(s, option))
    case Some(v) => Ok(PStr(v))
    case None =>
      if key !in reg.store then Err(UndefinedOption(s, option))
      else if reg.store[key] != "" then Ok(PStr(reg.store[key]))
      else if default.Some? then Ok(default.value)
      else Err(UnsetOption(s, option))
  }

  /** Right after `define`, with no truthy command-line value for its flag, a
      pair yields its declared default as a string when that default is
      truthy; otherwise the call-time default; without one, UnsetOption. */
  lemma DeclaredOptionResolves(reg: Registry, d: Decl, default: Option<PyVal>)
    requires Declare(reg, d).Ok?
    requires CmdValue(reg, FlagName(SectionName(d.section), d.option)).None?
    ensures Get(Declare(reg, d).value, d.option, d.section, default) ==
            if StoredDefault(d.default) != "" then Ok(PStr(StoredDefault(d.default)))
            else if default.Some? then Ok(default.value)
            else Err(UnsetOption(SectionName(d.section), d.option))
  {
  }

  /** A falsy declared default (`0`, `False`, `''`) counts as no default at all. */
  lemma FalsyDefaultIsNoDefault(reg: Registry, d: Decl, default: Option<PyVal>)
    requires Declare(reg, d).Ok? && d.default.Some? && !Truthy(d.default.value)
    requires CmdValue(reg, FlagName(SectionName(d.section), d.option)).None?
    ensures Get(Declare(reg, d).value, d.option, d.section, default) ==
            Get(Declare(reg, d.(default := None)).value, d.option, d.section, default)
  {
    DeclaredOptionResolves(reg, d, default);
    DeclaredOptionResolves(reg, d.(default := None), default);
  }

  // ---------------------------------------------------------------------------
  // Loading a configuration file

  function Put(reg: Registry, e: Entry): Registry
  {
    reg.(store := reg.store[EntryKey(e) := e.value])
  }

  /** What `ConfigParser.read` does to the store: each entry, in file order,
      sets its pair's value. */
  function Load(reg: Registry, entries: seq<Entry>): (r: Registry)
    ensures r.required == reg.required && r.flags == reg.flags && r.cmd == reg.cmd
    ensures reg.store.Keys <= r.store.Keys
    ensures Wf(reg) ==> Wf(r)
    decreases |entries|
  {
    if entries == [] then reg else Load(Put(reg, entries[0]), entries[1..])
  }

  /** After loading, a pair holds the value of the last entry for it. */
  lemma {:induction false} LoadLastEntryWins(reg: Registry, entries: seq<Entry>, i: int)
    requires 0 <= i < |entries|
    requires forall j :: i < j < |entries| ==> EntryKey(entries[j]) != EntryKey(entries[i])
    ensures EntryKey(entries[i]) in Load(reg, entries).store
    ensures Load(reg, entries).store[EntryKey(entries[i])] == entries[i].value
    decreases |entries|
  {
    if i == 0 {
      LoadLeavesOthers(Put(reg, entries[0]), entries[1..], EntryKey(entries[0]));
    } else {
      LoadLastEntryWins(Put(reg, entries[0]), entries[1..], i - 1);
    }
  }

  /** Pairs no entry mentions keep their values. */
  lemma {:induction false} LoadLeavesOthers(reg: Registry, entries: seq<Entry>, k: Key)
    requires forall j :: 0 <= j < |entries| ==> EntryKey(entries[j]) != k
    ensures k in Load(reg, entries).store <==> k in reg.store
    ensures k in reg.store ==> Load(reg, entries).store[k] == reg.store[k]
    decreases |entries|
  {
    if entries != [] {
      LoadLeavesOthers(Put(reg, entries[0]), entries[1..], k);
    }
  }

  // ---------------------------------------------------------------------------
  // __call__: the configuration path and the required-option audit

  /** `config_file or (self._options and self._options.conf)`: after the parse
      the options object is always truthy, so a non-empty `config_file`
      argument beats `--conf`, which is used whenever it was given. */
  function ConfigPath(configFile: Option<string>, parsed: map<string, string>): (path: Option<string>)
    ensures configFile.Some? && configFile.value != "" ==> path == configFile
    ensures !(configFile.Some? && configFile.value != "") ==>
              path == if "conf" in parsed then Some(parsed["conf"]) else None
  {
    if configFile.Some? && configFile.value != "" then configFile
    else if "conf" in parsed then Some(parsed["conf"])
    else None
  }

  /** `assert self.get(opt, section=section)` for one required pair. */
  function CheckOne(reg: Registry, k: Key): (r: Outcome<Error>)
    ensures r == Pass <==> Get(reg, k.1, Some(k.0), None).Ok? && Truthy(Get(reg, k.1, Some(k.0), None).value)
    ensures Get(reg, k.1, Some(k.0), None).Err? ==> r == Fail(Get(reg, k.1, Some(k.0), None).error)
    ensures Get(reg, k.1, Some(k.0), None).Ok? && !Truthy(Get(reg, k.1, Some(k.0), None).value) ==>
              r == Fail(NotConfigured(k.0, k.1))
  {
    match Get(reg, k.1, Some(k.0), None)
    case Err(e) => Fail(e)
    case Ok(v) => if Truthy(v) then Pass else Fail(NotConfigured(k.0, k.1))
  }

  /** The outcome of each required pair's check, in order. */
  function Checks(reg: Registry, req: seq<Key>): (outs: seq<Outcome<Error>>)
    ensures |outs| == |req| && forall i :: 0 <= i < |req| ==> outs[i] == CheckOne(reg, req[i])
  {
    seq(|req|, i requires 0 <= i < |req| => CheckOne(reg, req[i]))
  }

  /** The audit loop: the first required pair that fails decides. */
  function AuditFrom(reg: Registry, req: seq<Key>): Outcome<Error>
  {
    FirstFailure(Checks(reg, req))
  }

  lemma AuditPassesIff(reg: Registry, req: seq<Key>)
    ensures AuditFrom(reg, req) == Pass <==> forall i :: 0 <= i < |req| ==> CheckOne(reg, req[i]) == Pass
  {
    FirstFailurePassesIff(Checks(reg, req));
  }

  /** A failed audit reports the failure of the first failing pair. */
  lemma AuditReportsFirstFailure(reg: Registry, req: seq<Key>)
    requires AuditFrom(reg, req).Fail?
    ensures exists i :: 0 <= i < |req| && CheckOne(reg, req[i]) == AuditFrom(reg, req) &&
                        forall j :: 0 <= j < i ==> CheckOne(reg, req[j]) == Pass
  {
    var outs := Checks(reg, req);
    FirstFailureIsFirst(outs);
    var i :| 0 <= i < |outs| && outs[i] == FirstFailure(outs) && forall j :: 0 <= j < i ==> outs[j] == Pass;
    assert CheckOne(reg, req[i]) == AuditFrom(reg, req);
  }

  /** A required pair passes exactly when it has a truthy command-line value
      or a non-empty stored value; otherwise `get` raises UnsetOption before
      the assertion is reached, so the assertion itself never fails. */
  lemma RequiredFailsOnlyUnset(reg: Registry, k: Key)
    requires Wf(reg) && k in reg.required
    ensures CheckOne(reg, k) == Pass <==>
              CheckOne(reg, k) != Fail(UnsetOption(k.0, k.1))
    ensures CheckOne(reg, k) == Pass <==>
              CmdValue(reg, FlagName(k.0, k.1)).Some? || reg.store[k] != ""
  {
  }

  /** The audit either passes or reports UnsetOption for some required pair. */
  lemma AuditFailsOnlyUnset(reg: Registry, req: seq<Key>)
    requires Wf(reg) && forall k :: k in req ==> k in reg.required
    ensures AuditFrom(reg, req).Fail? ==>
              exists k :: k in req && AuditFrom(reg, req) == Fail(UnsetOption(k.0, k.1))
  {
    if AuditFrom(reg, req).Fail? {
      AuditReportsFirstFailure(reg, req);
      var i :| 0 <= i < |req| && CheckOne(reg, req[i]) == AuditFrom(reg, req);
      RequiredFailsOnlyUnset(reg, req[i]);
    }
  }

  /** `__call__` as it is meant to work: record the parsed command line, load
      the chosen file when it is usable, then audit the required pairs when
      asked to. */
  function Resolve(reg: Registry, configFile: Option<string>, parsed: map<string, string>,
                   fs: map<string, seq<Entry>>, checkRequired: bool): (r: (Registry, Outcome<Error>))
    ensures r.0.cmd == Some(parsed)
    ensures Usable(ConfigPath(configFile, parsed), fs) ==>
              r.0 == Load(reg.(cmd := Some(parsed)), fs[ConfigPath(configFile, parsed).value])
    ensures !Usable(ConfigPath(configFile, parsed), fs) ==> r.0 == reg.(cmd := Some(parsed))
    ensures Wf(reg) ==> Wf(r.0)
    ensures !checkRequired ==> r.1 == Pass
    ensures checkRequired ==>
              (r.1 == Pass <==> forall i :: 0 <= i < |r.0.required| ==> CheckOne(r.0, r.0.required[i]) == Pass)
  {
    var parsedReg := reg.(cmd := Some(parsed));
    var path := ConfigPath(configFile, parsed);
    var loaded := if Usable(path, fs) then Load(parsedReg, fs[path.value]) else parsedReg;
    AuditPassesIff(loaded, loaded.required);
    (loaded, if checkRequired then AuditFrom(loaded, loaded.required) else Pass)
  }

  /** `__call__` as written: `parse_conf_file` is called without the path it
      requires, so a usable file raises TypeError and the audit never runs. */
  function ResolveAsWritten(reg: Registry, configFile: Option<string>, parsed: map<string, string>,
                            fs: map<string, seq<Entry>>, checkRequired: bool): (r: (Registry, Outcome<Error>))
    ensures r.0 == reg.(cmd := Some(parsed))
    ensures Usable(ConfigPath(configFile, parsed), fs) ==> r.1 == Fail(MissingConfigFileArgument)
    ensures !Usable(ConfigPath(configFile, parsed), fs) ==> r == Resolve(reg, configFile, parsed, fs, checkRequired)
  {
    var parsedReg := reg.(cmd := Some(parsed));
    if Usable(ConfigPath(configFile, parsed), fs) then (parsedReg, Fail(MissingConfigFileArgument))
    else (parsedReg, if checkRequired then AuditFrom(parsedReg, parsedReg.required) else Pass)
  }

  /** With the call fixed, a value from the chosen file becomes visible: the
      last entry for a pair, non-empty and not overridden on the command line,
      is what `get` returns. */
  lemma FileValueVisible(reg: Registry, configFile: Option<string>, parsed: map<string, string>,
                         fs: map<string, seq<Entry>>, path: string, i: int, default: Option<PyVal>)
    requires ConfigPath(configFile, parsed) == Some(path) && path != "" && path in fs
    requires 0 <= i < |fs[path]| && fs[path][i].section != "" && fs[path][i].value != ""
    requires forall j :: i < j < |fs[path]| ==> EntryKey(fs[path][j]) != EntryKey(fs[path][i])
    requires var f := FlagName(fs[path][i].section, fs[path][i].option);
             f !in parsed || parsed[f] == ""
    ensures var e := fs[path][i];
            Get(Resolve(reg, configFile, parsed, fs, false).0, e.option, Some(e.section), default) == Ok(PStr(e.value))
  {
    LoadLastEntryWins(reg.(cmd := Some(parsed)), fs[path], i);
  }

  /** The discrepancy on one input: a `port` declared with a default, and an
      existing file that sets it. As written, `__call__` fails; as intended,
      it succeeds and `get('port')` reads the file's value. */
  lemma MissingArgumentExample()
    ensures var reg := Declare(Empty(), Decl("port", None, Some(PStr("9090")), false, false)).value;
            var fs := map["app.conf" := [Entry(DefaultSection, "port", "8080")]];
            && ResolveAsWritten(reg, Some("app.conf"), map[], fs, false).1 == Fail(MissingConfigFileArgument)
            && Resolve(reg, Some("app.conf"), map[], fs, false).1 == Pass
            && Get(Resolve(reg, Some("app.conf"), map[], fs, false).0, "port", None, None) == Ok(PStr("8080"))
  {
    var reg := Declare(Empty(), Decl("port", None, Some(PStr("9090")), false, false)).value;
    var fs := map["app.conf" := [Entry(DefaultSection, "port", "8080")]];
    assert Upper(DefaultSection) == DefaultSection;
    FileValueVisible(reg, Some("app.conf"), map[], fs, "app.conf", 0, None);
  }

  // ---------------------------------------------------------------------------
  // How the two versions differ

  /** The configuration path: the older version prefers the `config_file`
      argument to `--conf`; the current one prefers `--conf` to `default_conf`. */
  lemma PathPrecedenceReversed(parsed: map<string, string>, arg: string)
    requires "conf" in parsed && parsed["conf"] != "" && arg != ""
    ensures ConfigPath(Some(arg), parsed) == Some(arg)
    ensures Econf.ConfigPath(parsed, Some(arg)) == Some(parsed["conf"])
  {
  }

  /** An empty command-line value: the older version skips it and reads the
      store; the current one returns it. */
  lemma EmptyCommandLineValueDiffers(reg: Registry, cur: Econf.Registry, option: string, section: string,
                                     parsed: map<string, string>)
    requires section != "" && FlagName(section, option) in parsed && parsed[FlagName(section, option)] == ""
    requires (section, option) in reg.store && reg.store[(section, option)] != ""
    ensures Get(reg.(cmd := Some(parsed)), option, Some(section), None) == Ok(PStr(reg.store[(section, option)]))
    ensures Econf.RawGet(cur.(cmd := Some(parsed)), option, section, None) == Ok(PStr(""))
  {
  }

  /** A falsy default: the older version stores `''`, which reads as no value;
      the current one stores `str(default)`. */
  lemma FalsyDefaultStoredDifferently()
    ensures StoredDefault(Some(PInt(0))) == ""
    ensures Econf.StoredDefault(Some(PInt(0))) == Econf.Val("0")
    ensures StoredDefault(Some(PBool(false))) == ""
    ensures Econf.StoredDefault(Some(PBool(false))) == Econf.Val("False")
  {
  }

  // ---------------------------------------------------------------------------
  // The Config object

  /** A method applied the outcome of a spec function: on success the new
      state is the function's, on failure nothing changed. */
  predicate Applied(before: Registry, res: Result<Registry, Error>, after: Registry, r: Outcome<Error>)
  {
    match res
    case Ok(next) => after == next && r == Pass
    case Err(e) => after == before && r == Fail(e)
  }

  class Config {
    var store: map<Key, string>
    var required: seq<Key>
    var flags: set<string>
    var cmd: Option<map<string, string>>

    function State(): Registry
      reads this
    {
      Registry(store, required, flags, cmd)
    }

    ghost predicate Valid()
      reads this
    {
      Wf(State())
    }

    constructor ()
      ensures Valid() && State() == Empty()
    {
      store := map[];
      required := [];
      flags := BuiltinFlags;
      cmd := None;
    }

    /** `define`. */
    method Define(d: Decl) returns (r: Outcome<Error>)
      requires Valid()
      modifies this
      ensures Valid()
      ensures Applied(old(State()), Declare(old(State()), d), State(), r)
    {
      var section := SectionName(d.section);
      var key := (section, d.option);
      if d.cmdline {
        var long := LongOption(FlagName(section, d.option));
        var check := FlagCheck(flags, long);
        if check.Fail? {
          return check;
        }
        flags := flags + {long};
      }
      store := store[key := StoredDefault(d.default)];
      if d.required {
        required := required + [key];
      }
      r := Pass;
    }

    /** `parse_cmdline`, with optparse's result given as destinations and values. */
    method ParseCmdline(parsed: map<string, string>)
      modifies this
      ensures State() == old(State()).(cmd := Some(parsed))
    {
      cmd := Some(parsed);
    }

    /** `parse_conf_file` after ConfigParser has parsed the file into entries. */
    method ParseConfFile(entries: seq<Entry>)
      requires Valid()
      modifies this
      ensures Valid()
      ensures State() == Load(old(State()), entries)
    {
      ghost var start := State();
      var i := 0;
      while i < |entries|
        invariant 0 <= i <= |entries|
        invariant Valid()
        invariant Load(start, entries) == Load(State(), entries[i..])
      {
        assert entries[i..][1..] == entries[i + 1..];
        store := store[EntryKey(entries[i]) := entries[i].value];
        i := i + 1;
      }
    }

    /** The required-option loop of `__call__`. */
    method CheckRequired() returns (r: Outcome<Error>)
      ensures r == AuditFrom(State(), required)
    {
      var i := 0;
      while i < |required|
        invariant 0 <= i <= |required|
        invariant AuditFrom(State(), required) == FirstFailure(Checks(State(), required)[i..])
      {
        var (section, opt) := required[i];
        ghost var outs := Checks(State(), required);
        assert outs[i..][0] == CheckOne(State(), required[i]);
        assert outs[i..][1..] == outs[i + 1..];
        var value := Get(State(), opt, Some(section), None);
        if value.Err? {
          return Fail(value.error);
        }
        if !Truthy(value.value) {
          return Fail(NotConfigured(section, opt));
        }
        i := i + 1;
      }
      r := Pass;
    }

    /** `__call__`, with the configuration path handed to `parse_conf_file`:
        `parsed` is what optparse made of the arguments, keyed by destination;
        `fs` maps each existing path to the entries ConfigParser reads from it. */
    method Call(configFile: Option<string>, parsed: map<string, string>,
                fs: map<string, seq<Entry>>, checkRequired: bool) returns (r: Outcome<Error>)
      requires Valid()
      modifies this
      ensures Valid()
      ensures (State(), r) == Resolve(old(State()), configFile, parsed, fs, checkRequired)
    {
      ParseCmdline(parsed);
      var path := ConfigPath(configFile, parsed);
      if Usable(path, fs) {
        ParseConfFile(fs[path.value]);
      }
      if checkRequired {
        r := CheckRequired();
      } else {
        r := Pass;
      }
    }
  }
}
