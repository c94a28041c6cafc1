/** The current registry (econf/__init__.py): typed options declared into
    sections, a three-tier lookup (command line, stored value, call-time
    default) followed by the option's converter, start-up resolution with a
    required-option audit, and option groups declared as classes. */
module Econf {
  import opened Python
  import opened Common

  /** The long options optparse holds before any `define`: `--help` (added by
      OptionParser itself), `--conf` and `--version` (added by `Config.__init__`). */
  const BuiltinFlags: set<string> := {"--help", "--conf", "--version"}

  /** The converters the typed options hand to `define`: `str` (StrOpt, and
      `define`'s default), `int` (IntOpt) and BoolOpt's `en_bool`. */
  datatype Conv = StrConv | IntConv | BoolConv

  /** A stored value: the `UNSET` sentinel (declared without a default) or a string. */
  datatype Stored = Unset | Val(s: string)

  /** The arguments of `define` (`help` is display-only and left out). */
  datatype Decl = Decl(option: string, section: Option<string>, conv: Conv,
                       default: Option<PyVal>, cmdline: bool, required: bool)

  /** The state of a `Config`: the converter per pair, the ConfigParser store,
      the order in which pairs entered the store, the required list, the long
      options registered with optparse, and the parsed command line (`None`
      before the first `__call__`), keyed by optparse destination. */
  datatype Registry = Registry(
    converters: map<Key, Conv>,
    store: map<Key, Stored>,
    keys: seq<Key>,
    required: seq<Key>,
    flags: set<string>,
    cmd: Option<map<string, string>>)

  /** What every reachable state satisfies. */
  ghost predicate Wf(reg: Registry)
  {
    && (forall i, j :: 0 <= i < j < |reg.keys| ==> reg.keys[i] != reg.keys[j])
    && (forall k :: k in reg.store <==> k in reg.keys)
    && reg.converters.Keys <= reg.store.Keys
    && (forall k :: k in reg.required ==> k in reg.store && k.0 != "")
    && BuiltinFlags <= reg.flags
  }

  /** A freshly constructed `Config`. */
  function Empty(): (reg: Registry)
    ensures Wf(reg)
  {
    Registry(map[], map[], [], [], BuiltinFlags, None)
  }

  // ---------------------------------------------------------------------------
  // Converters

  /** The strings BoolOpt reads as true. */
  const TrueTokens: set<string> := {"True", "true", "T", "t"}

  /** BoolOpt's `en_bool`: a string is true exactly when it is one of the four
      tokens; any other value has its native truth value. */
  function EnBool(v: PyVal): (b: bool)
    ensures v.PStr? ==> (b <==> v.s in TrueTokens)
    ensures !v.PStr? ==> (b <==> Truthy(v))
  {
    match v
    case PStr(s) => s == "True" || s == "true" || s == "T" || s == "t"
    case _ => Truthy(v)
  }

  /** `int(v)`. */
  function IntOf(v: PyVal): (r: Result<PyVal, Error>)
    ensures r.Ok? ==> r.value.PInt?
    ensures r.Err? ==> r == Err(BadInt(v))
    ensures v.PStr? ==> (r.Ok? <==> ParseInt(v.s).Some?)
    ensures v.PStr? && r.Ok? ==> r.value.i == ParseInt(v.s).value
    ensures v.PInt? ==> r == Ok(v)
    ensures v.PBool? ==> r == Ok(PInt(if v.b then 1 else 0))
    ensures v.PNone? ==> r.Err?
  {
    match v
    case PStr(s) =>
      (match ParseInt(s)
       case Some(i) => Ok(PInt(i))
       case None => Err(BadInt(v)))
    case PInt(_) => Ok(v)
    case PBool(b) => Ok(PInt(if b then 1 else 0))
    case PNone => Err(BadInt(v))
  }

  /** The option's converter applied to whatever `_get` returned: `str`
      gives a string, `int` an int or its ValueError, `en_bool` a bool. */
  function Convert(conv: Conv, v: PyVal): (r: Result<PyVal, Error>)
    ensures r.Err? <==> conv == IntConv && IntOf(v).Err?
    ensures r.Ok? && conv == StrConv ==> r.value == PStr(Str(v))
    ensures r.Ok? && conv == IntConv ==> r.value.PInt?
    ensures conv == IntConv ==> r == IntOf(v)
    ensures conv == BoolConv ==> r == Ok(PBool(EnBool(v)))
  {
    match conv
    case StrConv => Ok(PStr(Str(v)))
    case IntConv => IntOf(v)
    case BoolConv => Ok(PBool(EnBool(v)))
  }

  /** Converting an already converted value changes nothing. */
  lemma ConvertIdempotent(conv: Conv, v: PyVal)
    requires Convert(conv, v).Ok?
    ensures Convert(conv, Convert(conv, v).value) == Convert(conv, v)
  {
  }

  /** `define` stores `str(default)`. Reading that string back through the
      converter gives what converting the default itself gives, for a StrOpt,
      for an IntOpt whose default is an int or a string, and for a BoolOpt
      whose default is a bool or a string. */
  lemma StoredDefaultReadsBack(conv: Conv, d: PyVal)
    requires || conv == StrConv
             || (conv == IntConv && (d.PInt? || d.PStr?))
             || (conv == BoolConv && (d.PBool? || d.PStr?))
    ensures Convert(conv, PStr(Str(d))) == Convert(conv, d)
  {
    if conv == IntConv && d.PInt? {
      IntToStringRoundTrip(d.i);
    }
  }

  /** For a BoolOpt with an integer default it fails: `str(i)` is never one of
      the true tokens, so the option reads false even where `bool(i)` is true. */
  lemma BoolOptIntDefaultReadsFalse(i: int)
    ensures Convert(BoolConv, PStr(Str(PInt(i)))) == Ok(PBool(false))
    ensures Convert(BoolConv, PInt(i)) == Ok(PBool(i != 0))
  {
    var s := IntToString(i);
    assert s[0] != 'T' && s[0] != 't';
    assert "True"[0] == 'T' && "true"[0] == 't' && "T"[0] == 'T' && "t"[0] == 't';
    assert s !in TrueTokens;
  }

  // ---------------------------------------------------------------------------
  // define

  /** `str(default)`, or the `UNSET` sentinel when no default was given. */
  function StoredDefault(default: Option<PyVal>): (s: Stored)
    ensures s == Unset <==> default.None?
  {
    if default.None? then Unset else Val(Str(default.value))
  }

  function DeclKey(d: Decl): Key
  {
    (SectionName(d.section), d.option)
  }

  /** The long option a command-line declaration registers. */
  function DeclFlag(d: Decl): string
  {
    LongOption(FlagName(SectionName(d.section), d.option))
  }

  /** Every pair other than `key` reads the same in `a` and `b`. */
  ghost predicate SameElsewhere(a: Registry, b: Registry, key: Key)
  {
    && (forall k :: k != key ==> (k in a.store <==> k in b.store))
    && (forall k :: k != key && k in a.store && k in b.store ==> a.store[k] == b.store[k])
    && (forall k :: k != key ==> (k in a.converters <==> k in b.converters))
    && (forall k :: k != key && k in a.converters && k in b.converters ==> a.converters[k] == b.converters[k])
    && a.cmd == b.cmd
  }

  /** `define`: optparse may refuse the long option first, and then nothing
      changes; otherwise the pair's converter and stored default are
      overwritten, the pair is appended to the required list when required,
      and no other pair changes. */
  function Declare(reg: Registry, d: Decl): (r: Result<Registry, Error>)
    ensures r.Ok? <==> !d.cmdline || FlagCheck(reg.flags, DeclFlag(d)) == Pass
    ensures r.Err? ==> r.error == FlagCheck(reg.flags, DeclFlag(d)).error
    ensures r.Ok? ==>
              && DeclKey(d) in r.value.converters && r.value.converters[DeclKey(d)] == d.conv
              && DeclKey(d) in r.value.store && r.value.store[DeclKey(d)] == StoredDefault(d.default)
              && r.value.required == reg.required + (if d.required then [DeclKey(d)] else [])
              && r.value.flags == reg.flags + (if d.cmdline then {DeclFlag(d)} else {})
              && SameElsewhere(reg, r.value, DeclKey(d))
    ensures r.Ok? && Wf(reg) ==> Wf(r.value)
  {
    var key := DeclKey(d);
    if d.cmdline && FlagCheck(reg.flags, DeclFlag(d)).Fail? then
      Err(FlagCheck(reg.flags, DeclFlag(d)).error)
    else
      Ok(reg.(converters := reg.converters[key := d.conv],
              store := reg.store[key := StoredDefault(d.default)],
              keys := if key in reg.store then reg.keys else reg.keys + [key],
              required := if d.required then reg.required + [key] else reg.required,
              flags := if d.cmdline then reg.flags + {DeclFlag(d)} else reg.flags))
  }

  /** Declaring the same command-line option twice fails the second time. */
  lemma RedeclaredFlagConflicts(reg: Registry, d: Decl)
    requires d.cmdline && Declare(reg, d).Ok?
    ensures Declare(Declare(reg, d).value, d) == Err(FlagConflict(DeclFlag(d)))
  {
  }

  // ---------------------------------------------------------------------------
  // _get and get

  /** Tier 1: the value optparse parsed for a destination. Before any parse
      there is none. */
  function CmdValue(reg: Registry, flag: string): (v: Option<string>)
    ensures reg.cmd.None? ==> v.None?
  {
    if reg.cmd.Some? && flag in reg.cmd.value then Some(reg.cmd.value[flag]) else None
  }

  /** `_get` for a resolved section. */
  function RawGet(reg: Registry, option: string, section: string, default: Option<PyVal>): (r: Result<PyVal, Error>)
    ensures CmdValue(reg, FlagName(section, option)).Some? ==>
              r == Ok(PStr(CmdValue(reg, FlagName(section, option)).value))
    ensures r == Err(UndefinedOption(section, option)) <==>
              CmdValue(reg, FlagName(section, option)).None? && (section, option) !in reg.store
    ensures r == Err(UnsetOption(section, option)) <==>
              && CmdValue(reg, FlagName(section, option)).None?
              && (section, option) in reg.store && reg.store[(section, option)] == Unset
              && default.None?
    ensures CmdValue(reg, FlagName(section, option)).None? && (section, option) in reg.store ==>
              (reg.store[(section, option)].Val? ==> r == Ok(PStr(reg.store[(section, option)].s)))
    ensures && CmdValue(reg, FlagName(section, option)).None?
            && (section, option) in reg.store && reg.store[(section, option)] == Unset
            && default.Some? ==>
              r == Ok(default.value)
    ensures r.Err? ==> r.error.UndefinedOption? || r.error.UnsetOption?
    ensures r.Ok? && !r.value.PStr? ==> default == Some(r.value)
  {
    var key := (section, option);
    match CmdValue(reg, FlagName(section, option))
    case Some(v) => Ok(PStr(v))
    case None =>
      if key !in reg.store then Err(UndefinedOption(section, option))
      else match reg.store[key]
        case Val(s) => Ok(PStr(s))
        case Unset => if default.Some? then Ok(default.value) else Err(UnsetOption(section, option))
  }

  /** The converter recorded for a pair, `str` when none is. */
  function ConverterOf(reg: Registry, key: Key): (c: Conv)
    ensures key in reg.converters ==> c == reg.converters[key]
    ensures key !in reg.converters ==> c == StrConv
  {
    if key in reg.converters then reg.converters[key] else StrConv
  }

  /** `get`: `_get`, then the recorded converter, applied to whatever tier
      answered, the caller's default included. */
  function Get(reg: Registry, option: string, section: Option<string>, default: Option<PyVal>): (r: Result<PyVal, Error>)
    ensures RawGet(reg, option, SectionName(section), default).Err? ==>
              r == RawGet(reg, option, SectionName(section), default)
    ensures RawGet(reg, option, SectionName(section), default).Ok? ==>
              r == Convert(ConverterOf(reg, (SectionName(section), option)),
                           RawGet(reg, option, SectionName(section), default).value)
    ensures r.Err? ==> r.error.UndefinedOption? || r.error.UnsetOption? || r.error.BadInt?
  {
    var s := SectionName(section);
    match RawGet(reg, option, s, default)
    case Err(e) => Err(e)
    case Ok(v) => Convert(ConverterOf(reg, (s, option)), v)
  }

  /** Tier 1 wins: once the flag has a command-line value, neither the store
      nor the call-time default changes the answer. */
  lemma CommandLineWins(reg: Registry, option: string, section: Option<string>, default: Option<PyVal>,
                        otherStore: map<Key, Stored>, otherDefault: Option<PyVal>)
    requires CmdValue(reg, FlagName(SectionName(section), option)).Some?
    ensures Get(reg, option, section, default) ==
            Convert(ConverterOf(reg, (SectionName(section), option)),
                    PStr(CmdValue(reg, FlagName(SectionName(section), option)).value))
    ensures Get(reg, option, section, default) == Get(reg.(store := otherStore), option, section, otherDefault)
  {
  }

  /** Tier 1 looks up by flag name: two pairs whose flags coincide read the same
      command-line value. */
  lemma SharedFlagSharesValue(reg: Registry, o1: string, s1: string, o2: string, s2: string,
                              d1: Option<PyVal>, d2: Option<PyVal>)
    requires FlagName(s1, o1) == FlagName(s2, o2)
    requires CmdValue(reg, FlagName(s1, o1)).Some?
    ensures RawGet(reg, o1, s1, d1) == RawGet(reg, o2, s2, d2)
  {
  }

  /** The built-in `--conf` destination is the flag of option `conf` in the
      default section: after a parse that saw `--conf`, that option reads the
      configuration path, whether declared or not. */
  lemma ConfOptionReadsConfigPath(reg: Registry, parsed: map<string, string>, default: Option<PyVal>)
    requires "conf" in parsed
    ensures RawGet(reg.(cmd := Some(parsed)), "conf", DefaultSection, default) == Ok(PStr(parsed["conf"]))
  {
    assert Upper(DefaultSection) == DefaultSection;
  }

  /** Right after `define`, with no command-line value for its flag, a pair
      yields its declared default; without one, the call-time default; without
      either, UnsetOption. The declared converter applies in every case. */
  lemma DeclaredOptionResolves(reg: Registry, d: Decl, default: Option<PyVal>)
    requires Declare(reg, d).Ok?
    requires CmdValue(reg, FlagName(SectionName(d.section), d.option)).None?
    ensures Get(Declare(reg, d).value, d.option, d.section, default) ==
            if d.default.Some? then Convert(d.conv, PStr(Str(d.default.value)))
            else if default.Some? then Convert(d.conv, default.value)
            else Err(UnsetOption(SectionName(d.section), d.option))
  {
    var after := Declare(reg, d).value;
    var key := DeclKey(d);
    DeclareUpdates(reg, d);
    assert after.store[key] == StoredDefault(d.default);
    assert ConverterOf(after, key) == d.conv;
    assert CmdValue(after, FlagName(key.0, key.1)).None?;
  }

  /** A second `define` of a pair replaces the first: every lookup afterwards
      answers as if only the second had happened. */
  lemma RedeclareLastWins(reg: Registry, d1: Decl, d2: Decl,
                          option: string, section: Option<string>, default: Option<PyVal>)
    requires DeclKey(d1) == DeclKey(d2)
    requires Declare(reg, d1).Ok? && Declare(reg, d2).Ok?
    requires Declare(Declare(reg, d1).value, d2).Ok?
    ensures Get(Declare(Declare(reg, d1).value, d2).value, option, section, default) ==
            Get(Declare(reg, d2).value, option, section, default)
  {
    var first := Declare(reg, d1).value;
    var twice := Declare(first, d2).value;
    var once := Declare(reg, d2).value;
    var key := DeclKey(d2);
    DeclareUpdates(reg, d1);
    DeclareUpdates(first, d2);
    DeclareUpdates(reg, d2);
    assert twice.store == once.store by {
      assert twice.store == reg.store[key := StoredDefault(d1.default)][key := StoredDefault(d2.default)];
    }
    assert twice.converters == once.converters by {
      assert twice.converters == reg.converters[key := d1.conv][key := d2.conv];
    }
    LookupDependsOnStoreOnly(twice, once, option, section, default);
  }

  /** The lookup-relevant part of a successful `define`, as plain map updates. */
  lemma DeclareUpdates(reg: Registry, d: Decl)
    requires Declare(reg, d).Ok?
    ensures Declare(reg, d).value.store == reg.store[DeclKey(d) := StoredDefault(d.default)]
    ensures Declare(reg, d).value.converters == reg.converters[DeclKey(d) := d.conv]
    ensures Declare(reg, d).value.cmd == reg.cmd
    ensures Declare(reg, d).value.keys == if DeclKey(d) in reg.store then reg.keys else reg.keys + [DeclKey(d)]
  {
  }

  /** A lookup reads only the parsed command line, the store and the converters. */
  lemma LookupDependsOnStoreOnly(a: Registry, b: Registry,
                                 option: string, section: Option<string>, default: Option<PyVal>)
    requires a.store == b.store && a.converters == b.converters && a.cmd == b.cmd
    ensures Get(a, option, section, default) == Get(b, option, section, default)
  {
  }

  // ---------------------------------------------------------------------------
  // options

  /** The option names of one section, in the order the pairs entered the store. */
  function OptionNames(keys: seq<Key>, section: string): (names: seq<string>)
    ensures forall o :: o in names <==> (section, o) in keys
    ensures |names| <= |keys|
  {
    if keys == [] then []
    else (if keys[0].0 == section then [keys[0].1] else []) + OptionNames(keys[1..], section)
  }

  lemma {:induction false} OptionNamesAppend(k1: seq<Key>, k2: seq<Key>, section: string)
    ensures OptionNames(k1 + k2, section) == OptionNames(k1, section) + OptionNames(k2, section)
  {
    if k1 == [] {
      assert k1 + k2 == k2;
    } else {
      assert (k1 + k2)[0] == k1[0];
      assert (k1 + k2)[1..] == k1[1..] + k2;
      OptionNamesAppend(k1[1..], k2, section);
      var head := if k1[0].0 == section then [k1[0].1] else [];
      assert OptionNames(k1 + k2, section) == head + (OptionNames(k1[1..], section) + OptionNames(k2, section));
      assert OptionNames(k1, section) == head + OptionNames(k1[1..], section);
    }
  }

  /** `options(section)`: the default section always answers; any other
      section answers only when it exists, that is when some pair of it is
      stored, and otherwise raises (KeyError). */
  function Options(reg: Registry, section: Option<string>): (r: Result<seq<string>, Error>)
    ensures section.None? || section.value == DefaultSection ==>
              r == Ok(OptionNames(reg.keys, DefaultSection))
    ensures section.Some? && section.value != DefaultSection ==>
              (r.Err? <==> forall o :: (section.value, o) !in reg.keys)
    ensures r.Ok? ==> forall o :: o in r.value <==> (if section.None? then DefaultSection else section.value, o) in reg.keys
  {
    if section.None? || section.value == DefaultSection then Ok(OptionNames(reg.keys, DefaultSection))
    else
      var names := OptionNames(reg.keys, section.value);
      if names == [] then Err(NoSection(section.value))
      else assert names[0] in names; Ok(names)
  }

  /** A `define` of a new pair appends its name to its section's options; a
      redefinition leaves the order as it was. */
  lemma DeclareKeepsOptionOrder(reg: Registry, d: Decl)
    requires Wf(reg) && Declare(reg, d).Ok?
    ensures OptionNames(Declare(reg, d).value.keys, SectionName(d.section)) ==
            OptionNames(reg.keys, SectionName(d.section)) + (if DeclKey(d) in reg.store then [] else [d.option])
    ensures Options(Declare(reg, d).value, Some(SectionName(d.section))) ==
            Ok(OptionNames(Declare(reg, d).value.keys, SectionName(d.section)))
  {
    var key := DeclKey(d);
    DeclareUpdates(reg, d);
    assert key in reg.store <==> key in reg.keys;
    AppendKeyNames(reg.keys, key);
    OptionsOfListedSection(Declare(reg, d).value, key);
  }

  /** A section holding a listed pair answers `options` with its names. */
  lemma OptionsOfListedSection(reg: Registry, key: Key)
    requires key in reg.keys
    ensures Options(reg, Some(key.0)) == Ok(OptionNames(reg.keys, key.0))
  {
    if key.0 != DefaultSection {
      assert key.1 in OptionNames(reg.keys, key.0);
    }
  }

  /** Appending a key not yet present adds its option name at the end of its
      section's names; a present key leaves them alone. */
  lemma AppendKeyNames(keys: seq<Key>, key: Key)
    ensures var next := if key in keys then keys else keys + [key];
            && OptionNames(next, key.0) == OptionNames(keys, key.0) + (if key in keys then [] else [key.1])
            && key in next
  {
    if key !in keys {
      OptionNamesAppend(keys, [key], key.0);
      assert OptionNames([key], key.0) == [key.1];
    }
  }

  // ---------------------------------------------------------------------------
  // Loading a configuration file

  function Put(reg: Registry, e: Entry): Registry
  {
    var k := EntryKey(e);
    reg.(store := reg.store[k := Val(e.value)],
         keys := if k in reg.store then reg.keys else reg.keys + [k])
  }

  lemma PutPreservesWf(reg: Registry, e: Entry)
    ensures Wf(reg) ==> Wf(Put(reg, e))
  {
  }

  /** What `ConfigParser.read` does to the store: each entry, in file order,
      sets its pair's value. */
  function Load(reg: Registry, entries: seq<Entry>): (r: Registry)
    ensures r.converters == reg.converters && r.required == reg.required
    ensures r.flags == reg.flags && r.cmd == reg.cmd
    ensures reg.store.Keys <= r.store.Keys
    decreases |entries|
  {
    if entries == [] then reg else Load(Put(reg, entries[0]), entries[1..])
  }

  /** Loading from entry `i` on is putting entry `i`, then loading the rest. */
  lemma LoadStep(reg: Registry, entries: seq<Entry>, i: int)
    requires 0 <= i < |entries|
    ensures Load(reg, entries[i..]) == Load(Put(reg, entries[i]), entries[i + 1..])
  {
    assert entries[i..][1..] == entries[i + 1..];
  }

  /** Reading a file keeps the registry well formed. */
  lemma {:induction false} LoadPreservesWf(reg: Registry, entries: seq<Entry>)
    ensures Wf(reg) ==> Wf(Load(reg, entries))
    decreases |entries|
  {
    if entries != [] {
      PutPreservesWf(reg, entries[0]);
      LoadPreservesWf(Put(reg, entries[0]), entries[1..]);
    }
  }

  /** After loading, a pair holds the value of the last entry for it. */
  lemma {:induction false} LoadLastEntryWins(reg: Registry, entries: seq<Entry>, i: int)
    requires 0 <= i < |entries|
    requires forall j :: i < j < |entries| ==> EntryKey(entries[j]) != EntryKey(entries[i])
    ensures EntryKey(entries[i]) in Load(reg, entries).store
    ensures Load(reg, entries).store[EntryKey(entries[i])] == Val(entries[i].value)
    decreases |entries|
  {
    if i == 0 {
      LoadLeavesOthers(Put(reg, entries[0]), entries[1..], EntryKey(entries[0]));
    } else {
      LoadLastEntryWins(Put(reg, entries[0]), entries[1..], i - 1);
    }
  }

  /** Pairs no entry mentions keep their values. */
  lemma {:induction false} LoadLeavesOthers(reg: Registry, entries: seq<Entry>, k: Key)
    requires forall j :: 0 <= j < |entries| ==> EntryKey(entries[j]) != k
    ensures k in Load(reg, entries).store <==> k in reg.store
    ensures k in reg.store ==> Load(reg, entries).store[k] == reg.store[k]
    decreases |entries|
  {
    if entries != [] {
      LoadLeavesOthers(Put(reg, entries[0]), entries[1..], k);
    }
  }

  // ---------------------------------------------------------------------------
  // __call__: the configuration path and the required-option audit

  /** `(self._options and self._options.conf) or default_conf`: a non-empty
      `--conf` beats the `default_conf` argument. */
  function ConfigPath(parsed: map<string, string>, defaultConf: Option<string>): (path: Option<string>)
    ensures "conf" in parsed && parsed["conf"] != "" ==> path == Some(parsed["conf"])
    ensures !("conf" in parsed && parsed["conf"] != "") ==> path == defaultConf
  {
    if "conf" in parsed && parsed["conf"] != "" then Some(parsed["conf"]) else defaultConf
  }

  /** `assert self.get(opt, section=section)` for one required pair. */
  function CheckOne(reg: Registry, k: Key): (r: Outcome<Error>)
    ensures r == Pass <==> Get(reg, k.1, Some(k.0), None).Ok? && Truthy(Get(reg, k.1, Some(k.0), None).value)
    ensures Get(reg, k.1, Some(k.0), None).Err? ==> r == Fail(Get(reg, k.1, Some(k.0), None).error)
    ensures Get(reg, k.1, Some(k.0), None).Ok? && !Truthy(Get(reg, k.1, Some(k.0), None).value) ==>
              r == Fail(NotConfigured(k.0, k.1))
  {
    match Get(reg, k.1, Some(k.0), None)
    case Err(e) => Fail(e)
    case Ok(v) => if Truthy(v) then Pass else Fail(NotConfigured(k.0, k.1))
  }

  /** The outcome of each required pair's check, in order. */
  function Checks(reg: Registry, req: seq<Key>): (outs: seq<Outcome<Error>>)
    ensures |outs| == |req| && forall i :: 0 <= i < |req| ==> outs[i] == CheckOne(reg, req[i])
  {
    seq(|req|, i requires 0 <= i < |req| => CheckOne(reg, req[i]))
  }

  /** The audit loop: the first required pair that fails decides. */
  function AuditFrom(reg: Registry, req: seq<Key>): (r: Outcome<Error>)
    ensures r.Fail? ==> exists i :: 0 <= i < |req| && CheckOne(reg, req[i]) == r
  {
    FirstFailure(Checks(reg, req))
  }

  lemma AuditPassesIff(reg: Registry, req: seq<Key>)
    ensures AuditFrom(reg, req) == Pass <==> forall i :: 0 <= i < |req| ==> CheckOne(reg, req[i]) == Pass
  {
    FirstFailurePassesIff(Checks(reg, req));
  }

  /** A failed audit reports the failure of the first failing pair. */
  lemma AuditReportsFirstFailure(reg: Registry, req: seq<Key>)
    requires AuditFrom(reg, req).Fail?
    ensures exists i :: 0 <= i < |req| && CheckOne(reg, req[i]) == AuditFrom(reg, req) &&
                        forall j :: 0 <= j < i ==> CheckOne(reg, req[j]) == Pass
  {
    var outs := Checks(reg, req);
    FirstFailureIsFirst(outs);
    var i :| 0 <= i < |outs| && outs[i] == FirstFailure(outs) && forall j :: 0 <= j < i ==> outs[j] == Pass;
    assert CheckOne(reg, req[i]) == AuditFrom(reg, req);
  }

  /** A required pair can fail only through UnsetOption, a failed `int`, or
      the assertion: it is always declared, so never UndefinedOption. */
  lemma RequiredNeverUndefined(reg: Registry, k: Key)
    requires Wf(reg) && k in reg.required
    ensures CheckOne(reg, k).Fail? ==>
              || CheckOne(reg, k) == Fail(UnsetOption(k.0, k.1))
              || CheckOne(reg, k).error.BadInt?
              || CheckOne(reg, k) == Fail(NotConfigured(k.0, k.1))
  {
  }

  /** The first half of `__call__`: record the parsed command line, then
      load the chosen file when it is usable. */
  function Prepare(reg: Registry, parsed: map<string, string>, defaultConf: Option<string>,
                   fs: map<string, seq<Entry>>): (r: Registry)
    ensures Usable(ConfigPath(parsed, defaultConf), fs) ==>
              r == Load(reg.(cmd := Some(parsed)), fs[ConfigPath(parsed, defaultConf).value])
    ensures !Usable(ConfigPath(parsed, defaultConf), fs) ==> r == reg.(cmd := Some(parsed))
    ensures r.cmd == Some(parsed) && r.required == reg.required && r.converters == reg.converters
    ensures Wf(reg) ==> Wf(r)
  {
    var parsedReg := reg.(cmd := Some(parsed));
    var path := ConfigPath(parsed, defaultConf);
    var entries := if Usable(path, fs) then fs[path.value] else [];
    LoadPreservesWf(parsedReg, entries);
    Load(parsedReg, entries)
  }

  /** `__call__`: prepare, then audit the required pairs when asked to. */
  function Resolve(reg: Registry, parsed: map<string, string>, defaultConf: Option<string>,
                   fs: map<string, seq<Entry>>, checkRequired: bool): (r: (Registry, Outcome<Error>))
    ensures r.0 == Prepare(reg, parsed, defaultConf, fs)
    ensures !checkRequired ==> r.1 == Pass
    ensures checkRequired ==>
              (r.1 == Pass <==> forall i :: 0 <= i < |reg.required| ==> CheckOne(r.0, reg.required[i]) == Pass)
  {
    var loaded := Prepare(reg, parsed, defaultConf, fs);
    AuditPassesIff(loaded, loaded.required);
    (loaded, if checkRequired then AuditFrom(loaded, loaded.required) else Pass)
  }

  /** A required pair declared without a default, given no command-line
      value and no file value, fails the audit. */
  lemma RequiredWithoutValueFails(reg: Registry, parsed: map<string, string>, defaultConf: Option<string>,
                                  fs: map<string, seq<Entry>>, k: Key)
    requires Wf(reg) && k in reg.required && reg.store[k] == Unset
    requires FlagName(k.0, k.1) !in parsed
    requires !Usable(ConfigPath(parsed, defaultConf), fs)
    ensures Resolve(reg, parsed, defaultConf, fs, true).1.Fail?
  {
    var i :| 0 <= i < |reg.required| && reg.required[i] == k;
    var after := Prepare(reg, parsed, defaultConf, fs);
    UnsetPairFails(after, k);
  }

  /** A stored UNSET pair without a command-line value fails its check with UnsetOption. */
  lemma UnsetPairFails(reg: Registry, k: Key)
    requires k.0 != "" && k in reg.store && reg.store[k] == Unset
    requires CmdValue(reg, FlagName(k.0, k.1)).None?
    ensures CheckOne(reg, k) == Fail(UnsetOption(k.0, k.1))
  {
    assert RawGet(reg, k.1, k.0, None) == Err(UnsetOption(k.0, k.1));
  }

  /** The same pair given a truthy value in the file, and no command-line
      value, passes its assertion. */
  lemma RequiredSatisfiedByFile(reg: Registry, parsed: map<string, string>, defaultConf: Option<string>,
                                fs: map<string, seq<Entry>>, path: string, i: int)
    requires ConfigPath(parsed, defaultConf) == Some(path) && path != "" && path in fs
    requires 0 <= i < |fs[path]| && fs[path][i].section != "" && fs[path][i].value != ""
    requires forall j :: i < j < |fs[path]| ==> EntryKey(fs[path][j]) != EntryKey(fs[path][i])
    requires ConverterOf(reg, EntryKey(fs[path][i])) == StrConv
    requires FlagName(fs[path][i].section, fs[path][i].option) !in parsed
    ensures CheckOne(Prepare(reg, parsed, defaultConf, fs), EntryKey(fs[path][i])) == Pass
  {
    var e := fs[path][i];
    var after := Load(reg.(cmd := Some(parsed)), fs[path]);
    LoadLastEntryWins(reg.(cmd := Some(parsed)), fs[path], i);
    assert Prepare(reg, parsed, defaultConf, fs) == after;
    assert RawGet(after, e.option, e.section, None) == Ok(PStr(e.value));
    assert Get(after, e.option, Some(e.section), None) == Ok(PStr(e.value));
  }

  /** The `port` option of BaseConf's docstring (econf/__init__.py:306-310):
      an IntOpt defaulting to 9090 and exposed on the command line. */
  const PortDecl := Decl("port", None, IntConv, Some(PInt(9090)), true, false)

  /** Declaring it succeeds and stores `"9090"` with the `int` converter. */
  lemma PortDeclares()
    ensures Declare(Empty(), PortDecl).Ok?
    ensures var reg := Declare(Empty(), PortDecl).value;
            && reg.store == map[(DefaultSection, "port") := Val(IntToString(9090))]
            && reg.converters == map[(DefaultSection, "port") := IntConv]
            && reg.cmd.None?
  {
    assert Upper(DefaultSection) == DefaultSection;
    assert FlagName(DefaultSection, "port") == "port";
    var long := DeclFlag(PortDecl);
    assert long[2] == 'p';
    assert long !in BuiltinFlags by {
      assert "--help"[2] == 'h' && "--conf"[2] == 'c' && "--version"[2] == 'v';
    }
    DeclareUpdates(Empty(), PortDecl);
  }

  /** It reads 9090 after a parse without `--port`. */
  lemma PortReadsDefault()
    ensures Declare(Empty(), PortDecl).Ok?
    ensures Get(Prepare(Declare(Empty(), PortDecl).value, map[], None, map[]), "port", None, None) == Ok(PInt(9090))
  {
    PortDeclares();
    var reg := Declare(Empty(), PortDecl).value;
    DefaultIntOptReads(reg.(cmd := Some(map[])), "port", 9090);
  }

  /** It reads `n` after `--port` with the decimal text of any integer `n`. */
  lemma PortReadsCommandLine(n: int)
    ensures Declare(Empty(), PortDecl).Ok?
    ensures Get(Prepare(Declare(Empty(), PortDecl).value, map["port" := IntToString(n)], None, map[]),
                "port", None, None) == Ok(PInt(n))
  {
    PortDeclares();
    var reg := Declare(Empty(), PortDecl).value;
    DefaultIntOptReads(reg.(cmd := Some(map["port" := IntToString(n)])), "port", n);
  }

  /** An `int` option of the default section whose answering tier holds the
      decimal text of `n` reads `n`. */
  lemma DefaultIntOptReads(reg: Registry, option: string, n: int)
    requires ConverterOf(reg, (DefaultSection, option)) == IntConv
    requires || CmdValue(reg, option) == Some(IntToString(n))
             || (CmdValue(reg, option).None? && (DefaultSection, option) in reg.store &&
                 reg.store[(DefaultSection, option)] == Val(IntToString(n)))
    ensures Get(reg, option, None, None) == Ok(PInt(n))
  {
    assert FlagName(DefaultSection, option) == option by {
      assert Upper(DefaultSection) == DefaultSection;
    }
    assert RawGet(reg, option, DefaultSection, None) == Ok(PStr(IntToString(n)));
    IntToStringRoundTrip(n);
  }

  // ---------------------------------------------------------------------------
  // Option groups (ConfMeta and BaseConf)

  /** A typed option descriptor: StrOpt, IntOpt or BoolOpt (`help` left out). */
  datatype Opt = Opt(kind: Conv, name: Option<string>, default: Option<PyVal>, required: bool, cmdline: bool)

  /** A class deriving from BaseConf: its own `__section__` (absent: `None`)
      and its option attributes, in definition order. */
  datatype Group = Group(section: Option<string>, attrs: seq<(string, Opt)>)

  /** ConfMeta gives an option without a name (`not val.name`) its attribute name. */
  function Named(attr: string, opt: Opt): (named: Opt)
    ensures opt.name.None? || opt.name.value == "" ==> named.name == Some(attr)
    ensures opt.name.Some? && opt.name.value != "" ==> named == opt
    ensures named.kind == opt.kind && named.default == opt.default
    ensures named.required == opt.required && named.cmdline == opt.cmdline
  {
    if opt.name.None? || opt.name.value == "" then opt.(name := Some(attr)) else opt
  }

  /** The option name an attribute is registered under. */
  function AttrName(attr: (string, Opt)): string
  {
    Named(attr.0, attr.1).name.value
  }

  /** `add_opt`: `define` with the descriptor's fields; a descriptor without a
      name fails define's string assertion. */
  function DeclareOpt(reg: Registry, opt: Opt, section: Option<string>): (r: Result<Registry, Error>)
    ensures opt.name.None? ==> r == Err(NameNotString)
    ensures opt.name.Some? ==>
              r == Declare(reg, Decl(opt.name.value, section, opt.kind, opt.default, opt.cmdline, opt.required))
  {
    if opt.name.None? then Err(NameNotString)
    else Declare(reg, Decl(opt.name.value, section, opt.kind, opt.default, opt.cmdline, opt.required))
  }

  /** ConfMeta's loop: each option attribute, named, registered under the
      group's section; the first failure stops the loop and the options
      registered before it stay registered. */
  function RegisterAll(reg: Registry, section: Option<string>, attrs: seq<(string, Opt)>): (r: (Registry, Outcome<Error>))
    ensures Wf(reg) ==> Wf(r.0)
    ensures r.0.cmd == reg.cmd
    ensures forall k :: k in reg.required ==> k in r.0.required
    ensures reg.flags <= r.0.flags
    ensures r.1.Fail? ==> r.1.error.BadFlag? || r.1.error.FlagConflict?
    ensures (forall j :: 0 <= j < |attrs| ==> !attrs[j].1.cmdline) ==> r.1 == Pass
    decreases |attrs|
  {
    if attrs == [] then (reg, Pass)
    else match DeclareOpt(reg, Named(attrs[0].0, attrs[0].1), section)
      case Err(e) => (reg, Fail(e))
      case Ok(next) => RegisterAll(next, section, attrs[1..])
  }

  /** A successful registration puts each required attribute's pair on the
      required list, where `__call__`'s audit finds it, and registers each
      command-line attribute's long option. */
  lemma {:induction false} RegisterAllRecords(reg: Registry, section: Option<string>,
                                              attrs: seq<(string, Opt)>, i: int)
    requires RegisterAll(reg, section, attrs).1 == Pass
    requires 0 <= i < |attrs|
    ensures attrs[i].1.required ==>
              (SectionName(section), AttrName(attrs[i])) in RegisterAll(reg, section, attrs).0.required
    ensures attrs[i].1.cmdline ==>
              LongOption(FlagName(SectionName(section), AttrName(attrs[i]))) in RegisterAll(reg, section, attrs).0.flags
    decreases |attrs|
  {
    var named := Named(attrs[0].0, attrs[0].1);
    var next := RegisterAllStep(reg, section, attrs);
    var after := RegisterAll(next, section, attrs[1..]).0;
    if i == 0 {
      DeclareOptRecords(reg, named, section);
      assert (SectionName(section), AttrName(attrs[0])) in next.required ==>
             (SectionName(section), AttrName(attrs[0])) in after.required;
    } else {
      assert attrs[1..][i - 1] == attrs[i];
      RegisterAllRecords(next, section, attrs[1..], i - 1);
    }
  }

  /** A registration whose first attribute is accepted continues from the
      state that attribute's `add_opt` leaves. */
  lemma RegisterAllStep(reg: Registry, section: Option<string>, attrs: seq<(string, Opt)>) returns (next: Registry)
    requires attrs != [] && DeclareOpt(reg, Named(attrs[0].0, attrs[0].1), section).Ok?
    ensures next == DeclareOpt(reg, Named(attrs[0].0, attrs[0].1), section).value
    ensures RegisterAll(reg, section, attrs) == RegisterAll(next, section, attrs[1..])
  {
    next := DeclareOpt(reg, Named(attrs[0].0, attrs[0].1), section).value;
  }

  /** One `add_opt` records a required pair and a command-line long option. */
  lemma DeclareOptRecords(reg: Registry, opt: Opt, section: Option<string>)
    requires DeclareOpt(reg, opt, section).Ok?
    ensures opt.required ==> (SectionName(section), opt.name.value) in DeclareOpt(reg, opt, section).value.required
    ensures opt.cmdline ==> LongOption(FlagName(SectionName(section), opt.name.value)) in DeclareOpt(reg, opt, section).value.flags
  {
  }

  /** The pairs of a group: its section with each attribute's option name. */
  predicate InGroup(section: Option<string>, attrs: seq<(string, Opt)>, k: Key)
  {
    exists j :: 0 <= j < |attrs| && k == (SectionName(section), AttrName(attrs[j]))
  }

  /** Registration touches only the group's own pairs. */
  lemma {:induction false} RegisterAllLeavesOthers(reg: Registry, section: Option<string>,
                                                   attrs: seq<(string, Opt)>, k: Key)
    requires !InGroup(section, attrs, k)
    ensures k in RegisterAll(reg, section, attrs).0.store <==> k in reg.store
    ensures k in reg.store ==> RegisterAll(reg, section, attrs).0.store[k] == reg.store[k]
    ensures k in RegisterAll(reg, section, attrs).0.converters <==> k in reg.converters
    ensures k in reg.converters ==> RegisterAll(reg, section, attrs).0.converters[k] == reg.converters[k]
    decreases |attrs|
  {
    if attrs != [] {
      assert k != (SectionName(section), AttrName(attrs[0]));
      match DeclareOpt(reg, Named(attrs[0].0, attrs[0].1), section)
      case Err(_) =>
      case Ok(next) =>
        RegisterAllLeavesOthers(next, section, attrs[1..], k);
    }
  }

  /** After a successful registration every attribute's pair carries the
      converter and the default of the last attribute registered under that
      name. */
  lemma {:induction false} RegisterAllLastWins(reg: Registry, section: Option<string>,
                                               attrs: seq<(string, Opt)>, i: int)
    requires RegisterAll(reg, section, attrs).1 == Pass
    requires 0 <= i < |attrs|
    requires forall j :: i < j < |attrs| ==> AttrName(attrs[j]) != AttrName(attrs[i])
    ensures var k := (SectionName(section), AttrName(attrs[i]));
            var after := RegisterAll(reg, section, attrs).0;
            && k in after.store && after.store[k] == StoredDefault(attrs[i].1.default)
            && k in after.converters && after.converters[k] == attrs[i].1.kind
    decreases |attrs|
  {
    var next := DeclareOpt(reg, Named(attrs[0].0, attrs[0].1), section).value;
    if i == 0 {
      var k := (SectionName(section), AttrName(attrs[0]));
      RegisterAllLeavesOthers(next, section, attrs[1..], k);
    } else {
      RegisterAllLastWins(next, section, attrs[1..], i - 1);
    }
  }

  /** `BaseConf.get`: `get` under the group's section, the default section
      when the group names none. */
  function GroupGet(reg: Registry, group: Group, option: string, default: Option<PyVal>): (r: Result<PyVal, Error>)
    ensures group.section.None? ==> r == Get(reg, option, Some(DefaultSection), default)
    ensures r == Get(reg, option, Some(SectionName(group.section)), default)
    ensures r.Err? && !r.error.BadInt? ==> r.error.section == SectionName(group.section) && r.error.option == option
  {
    Get(reg, option, group.section, default)
  }

  /** `BaseConf.options`: `options` of the group's section, the default
      section when the group names none. */
  function GroupOptions(reg: Registry, group: Group): (r: Result<seq<string>, Error>)
    ensures group.section.None? ==> r.Ok? && forall o :: o in r.value <==> (DefaultSection, o) in reg.keys
    ensures group.section.Some? && group.section.value != DefaultSection ==>
              (r.Err? <==> forall o :: (group.section.value, o) !in reg.keys)
    ensures r.Ok? && group.section.Some? ==> forall o :: o in r.value <==> (group.section.value, o) in reg.keys
  {
    Options(reg, group.section)
  }

  /** After a group is registered, reading one of its attributes through the
      group, with no command-line value, gives the attribute's own default
      through its own converter (or UnsetOption without a default). */
  lemma GroupAttributeResolves(reg: Registry, group: Group, i: int)
    requires RegisterAll(reg, group.section, group.attrs).1 == Pass
    requires 0 <= i < |group.attrs|
    requires forall j :: i < j < |group.attrs| ==> AttrName(group.attrs[j]) != AttrName(group.attrs[i])
    requires CmdValue(reg, FlagName(SectionName(group.section), AttrName(group.attrs[i]))).None?
    ensures var opt := group.attrs[i].1;
            GroupGet(RegisterAll(reg, group.section, group.attrs).0, group, AttrName(group.attrs[i]), None) ==
            if opt.default.Some? then Convert(opt.kind, PStr(Str(opt.default.value)))
            else Err(UnsetOption(SectionName(group.section), AttrName(group.attrs[i])))
  {
    RegisterAllLastWins(reg, group.section, group.attrs, i);
  }

  /** After a successful registration every attribute's pair is stored. */
  lemma RegisterAllStoresEach(reg: Registry, section: Option<string>, attrs: seq<(string, Opt)>, i: int)
    requires RegisterAll(reg, section, attrs).1 == Pass
    requires 0 <= i < |attrs|
    ensures (SectionName(section), AttrName(attrs[i])) in RegisterAll(reg, section, attrs).0.store
  {
    RegisterAllLastWins(reg, section, attrs, LastWithName(attrs, i));
  }

  /** After a group is registered, the group lists every one of its options. */
  lemma GroupListsItsOptions(reg: Registry, group: Group, i: int)
    requires Wf(reg) && RegisterAll(reg, group.section, group.attrs).1 == Pass
    requires group.section.None? || group.section.value != ""
    requires 0 <= i < |group.attrs|
    ensures GroupOptions(RegisterAll(reg, group.section, group.attrs).0, group).Ok?
    ensures AttrName(group.attrs[i]) in GroupOptions(RegisterAll(reg, group.section, group.attrs).0, group).value
  {
    var after := RegisterAll(reg, group.section, group.attrs).0;
    var key := (SectionName(group.section), AttrName(group.attrs[i]));
    RegisterAllStoresEach(reg, group.section, group.attrs, i);
    assert key in after.keys;
    if group.section.Some? && group.section.value != DefaultSection {
      assert key.0 == group.section.value;
      assert AttrName(group.attrs[i]) in OptionNames(after.keys, group.section.value);
    }
  }

  /** The last attribute index that shares attribute `i`'s option name. */
  function LastWithName(attrs: seq<(string, Opt)>, i: int): (last: int)
    requires 0 <= i < |attrs|
    ensures i <= last < |attrs| && AttrName(attrs[last]) == AttrName(attrs[i])
    ensures forall j :: last < j < |attrs| ==> AttrName(attrs[j]) != AttrName(attrs[i])
    decreases |attrs| - i
  {
    if exists j :: i < j < |attrs| && AttrName(attrs[j]) == AttrName(attrs[i]) then
      var j :| i < j < |attrs| && AttrName(attrs[j]) == AttrName(attrs[i]);
      LastWithName(attrs, j)
    else i
  }

  // ---------------------------------------------------------------------------
  // The Config object

  /** A method applied the outcome of a spec function: on success the new
      state is the function's, on failure nothing changed. */
  predicate Applied(before: Registry, res: Result<Registry, Error>, after: Registry, r: Outcome<Error>)
  {
    match res
    case Ok(next) => after == next && r == Pass
    case Err(e) => after == before && r == Fail(e)
  }

  class Config {
    var converters: map<Key, Conv>
    var store: map<Key, Stored>
    var keys: seq<Key>
    var required: seq<Key>
    var flags: set<string>
    var cmd: Option<map<string, string>>

    function State(): Registry
      reads this
    {
      Registry(converters, store, keys, required, flags, cmd)
    }

    ghost predicate Valid()
      reads this
    {
      Wf(State())
    }

    constructor ()
      ensures Valid() && State() == Empty()
    {
      converters := map[];
      store := map[];
      keys := [];
      required := [];
      flags := BuiltinFlags;
      cmd := None;
    }

    /** `define`. */
    method Define(d: Decl) returns (r: Outcome<Error>)
      requires Valid()
      modifies this
      ensures Valid()
      ensures Applied(old(State()), Declare(old(State()), d), State(), r)
    {
      var section := SectionName(d.section);
      var key := (section, d.option);
      if d.cmdline {
        var long := LongOption(FlagName(section, d.option));
        var check := FlagCheck(flags, long);
        if check.Fail? {
          return check;
        }
        flags := flags + {long};
      }
      if key !in store {
        keys := keys + [key];
      }
      converters := converters[key := d.conv];
      store := store[key := StoredDefault(d.default)];
      if d.required {
        required := required + [key];
      }
      assert State() == Declare(old(State()), d).value;
      r := Pass;
    }

    /** `add_opt`. */
    method AddOpt(opt: Opt, section: Option<string>) returns (r: Outcome<Error>)
      requires Valid()
      modifies this
      ensures Valid()
      ensures Applied(old(State()), DeclareOpt(old(State()), opt, section), State(), r)
    {
      if opt.name.None? {
        return Fail(NameNotString);
      }
      r := Define(Decl(opt.name.value, section, opt.kind, opt.default, opt.cmdline, opt.required));
    }

    /** ConfMeta's registration of a group's options, made an explicit call. */
    method RegisterGroup(group: Group) returns (r: Outcome<Error>)
      requires Valid()
      modifies this
      ensures Valid()
      ensures (State(), r) == RegisterAll(old(State()), group.section, group.attrs)
    {
      var i := 0;
      while i < |group.attrs|
        invariant 0 <= i <= |group.attrs|
        invariant Valid()
        invariant RegisterAll(old(State()), group.section, group.attrs) ==
                  RegisterAll(State(), group.section, group.attrs[i..])
      {
        var (attr, opt) := group.attrs[i];
        assert group.attrs[i..][1..] == group.attrs[i + 1..];
        var added := AddOpt(Named(attr, opt), group.section);
        if added.Fail? {
          return added;
        }
        i := i + 1;
      }
      r := Pass;
    }

    /** `parse_conf_file` after ConfigParser has parsed the file into entries. */
    method LoadFile(entries: seq<Entry>)
      requires Valid()
      modifies this
      ensures Valid()
      ensures State() == Load(old(State()), entries)
    {
      ghost var start := State();
      var i := 0;
      while i < |entries|
        invariant 0 <= i <= |entries|
        invariant Load(start, entries) == Load(State(), entries[i..])
      {
        LoadStep(State(), entries, i);
        PutEntry(entries[i]);
        i := i + 1;
      }
      LoadPreservesWf(start, entries);
    }

    /** ConfigParser's `set` of one file entry. */
    method PutEntry(e: Entry)
      modifies this
      ensures State() == Put(old(State()), e)
    {
      var k := EntryKey(e);
      if k !in store {
        keys := keys + [k];
      }
      store := store[k := Val(e.value)];
    }

    /** The required-option loop of `__call__`. */
    method CheckRequired() returns (r: Outcome<Error>)
      requires Valid()
      ensures r == AuditFrom(State(), required)
    {
      var i := 0;
      while i < |required|
        invariant 0 <= i <= |required|
        invariant AuditFrom(State(), required) == FirstFailure(Checks(State(), required)[i..])
      {
        var (section, opt) := required[i];
        ghost var outs := Checks(State(), required);
        assert outs[i..][0] == CheckOne(State(), required[i]);
        assert outs[i..][1..] == outs[i + 1..];
        var value := Get(State(), opt, Some(section), None);
        if value.Err? {
          return Fail(value.error);
        }
        if !Truthy(value.value) {
          return Fail(NotConfigured(section, opt));
        }
        i := i + 1;
      }
      r := Pass;
    }

    /** `__call__`: `parsed` is what optparse made of the arguments, keyed by
        destination; `fs` maps each existing path to the entries ConfigParser
        reads from it. */
    method Call(parsed: map<string, string>, defaultConf: Option<string>,
                fs: map<string, seq<Entry>>, checkRequired: bool) returns (r: Outcome<Error>)
      requires Valid()
      modifies this
      ensures Valid()
      ensures (State(), r) == Resolve(old(State()), parsed, defaultConf, fs, checkRequired)
    {
      cmd := Some(parsed);
      var path := ConfigPath(parsed, defaultConf);
      if Usable(path, fs) {
        LoadFile(fs[path.value]);
      }
      if checkRequired {
        r := CheckRequired();
      } else {
        r := Pass;
      }
    }
  }
}
