/** What both versions of the registry share: option keys, configuration-file
    entries, the exceptions they raise, and how an option's command-line flag
    is named and registered. */
module Common {
  import opened Python

  /** ConfigParser's name for the default section. */
  const DefaultSection: string := "DEFAULT"

  /** A declared option's key: (section, option name). */
  type Key = (string, string)

  /** One `option = value` line of a configuration file, under its `[section]`. */
  datatype Entry = Entry(section: string, option: string, value: string)

  function EntryKey(e: Entry): Key
  {
    (e.section, e.option)
  }

  /** The exceptions the registry raises. */
  datatype Error =
    | UndefinedOption(section: string, option: string)  // lookup of a pair nobody declared
    | UnsetOption(section: string, option: string)      // declared, but no value and no call-time default
    | NotConfigured(section: string, option: string)    // the required-option assertion
    | BadInt(value: PyVal)                              // `int(value)` raised
    | NameNotString                                     // define's `isinstance(option, str)` assertion
    | BadFlag(flag: string)                             // optparse refused a malformed long option
    | FlagConflict(flag: string)                        // optparse refused a long option already registered
    | NoSection(section: string)                        // `options(section)` on a section that does not exist
    | MissingConfigFileArgument                         // `parse_conf_file()` called without its argument

  /** A run of checks stops at its first failure: that failure, or Pass when none fails. */
  function FirstFailure(outs: seq<Outcome<Error>>): (r: Outcome<Error>)
    ensures r.Fail? ==> r in outs
    ensures outs == [] ==> r == Pass
    decreases |outs|
  {
    if outs == [] then Pass
    else if outs[0].Fail? then outs[0]
    else FirstFailure(outs[1..])
  }

  lemma {:induction false} FirstFailurePassesIff(outs: seq<Outcome<Error>>)
    ensures FirstFailure(outs) == Pass <==> forall i :: 0 <= i < |outs| ==> outs[i] == Pass
    decreases |outs|
  {
    if outs != [] {
      FirstFailurePassesIff(outs[1..]);
      assert forall i :: 0 < i < |outs| ==> outs[i] == outs[1..][i - 1];
    }
  }

  /** A failing run reports the failure of its first failing check. */
  lemma {:induction false} FirstFailureIsFirst(outs: seq<Outcome<Error>>)
    requires FirstFailure(outs).Fail?
    ensures exists i :: 0 <= i < |outs| && outs[i] == FirstFailure(outs) &&
                        forall j :: 0 <= j < i ==> outs[j] == Pass
    decreases |outs|
  {
    if outs[0].Pass? {
      var rest := outs[1..];
      FirstFailureIsFirst(rest);
      var i :| 0 <= i < |rest| && rest[i] == FirstFailure(rest) && forall j :: 0 <= j < i ==> rest[j] == Pass;
      assert outs[i + 1] == rest[i];
      assert forall j :: 0 < j < i + 1 ==> outs[j] == rest[j - 1];
    }
  }

  /** `section or ConfigParser.DEFAULTSECT`: an omitted or empty section is the default one. */
  function SectionName(section: Option<string>): (s: string)
    ensures s != ""
    ensures section.None? || section.value == "" ==> s == DefaultSection
    ensures section.Some? && section.value != "" ==> s == section.value
  {
    if section.None? || section.value == "" then DefaultSection else section.value
  }

  /** A configuration-file path is used when it is given, non-empty, and
      names an existing file (`fs` maps each existing path to its parsed entries). */
  predicate Usable(path: Option<string>, fs: map<string, seq<Entry>>)
  {
    path.Some? && path.value != "" && path.value in fs
  }

  /** `section.upper() == DEFAULTSECT`: the flag-naming test, which ignores case. */
  predicate IsDefaultSection(section: string)
  {
    Upper(section) == DefaultSection
  }

  /** `_cmd_option`: the optparse destination that holds an option's
      command-line value. An option of a section spelled "default" in any case
      keeps its own name; any other option is prefixed by its lower-cased
      section and an underscore. */
  function FlagName(section: string, option: string): (flag: string)
    ensures flag == option <==> IsDefaultSection(section)
  {
    if IsDefaultSection(section) then option else Lower(section) + "_" + option
  }

  /** A destination ends with the option's name; outside the default section
      it starts with the lower-cased section and `_`. */
  lemma FlagNameShape(section: string, option: string)
    ensures var flag := FlagName(section, option);
            |flag| >= |option| && flag[|flag| - |option|..] == option
    ensures var flag := FlagName(section, option);
            !IsDefaultSection(section) ==>
              |flag| == |section| + 1 + |option| && flag[..|section| + 1] == Lower(section) + "_"
  {
  }

  /** The long option `define` registers for a flag: `"--"` and the flag with
      every `_` replaced by `-`. */
  function LongOption(flag: string): (long: string)
    ensures |long| == |flag| + 2 && long[..2] == "--"
    ensures forall k :: 0 <= k < |flag| ==> long[k + 2] == (if flag[k] == '_' then '-' else flag[k])
  {
    "--" + seq(|flag|, k requires 0 <= k < |flag| => if flag[k] == '_' then '-' else flag[k])
  }

  /** optparse's `add_option` checks for a long option: it must be `--`
      followed by a non-dash character, and must not be registered already. */
  function FlagCheck(flags: set<string>, long: string): (r: Outcome<Error>)
    ensures r == Pass <==> |long| >= 3 && long[2] != '-' && long !in flags
  {
    if |long| < 3 || long[2] == '-' then Fail(BadFlag(long))
    else if long in flags then Fail(FlagConflict(long))
    else Pass
  }

  /** Within one section the flag determines the option. */
  lemma FlagDeterminesOption(section: string, o1: string, o2: string)
    requires FlagName(section, o1) == FlagName(section, o2)
    ensures o1 == o2
  {
    if !IsDefaultSection(section) {
      var f := FlagName(section, o1);
      assert f == Lower(section) + "_" + o1;
      assert o1 == f[|section| + 1..];
      assert f == Lower(section) + "_" + o2;
    }
  }

  /** Across sections it does not: the section name is only case-folded and
      glued with `_`, so different pairs can share one flag. */
  lemma FlagNamesCollide()
    ensures ("db", "pool_size") != ("db_pool", "size")
    ensures FlagName("db", "pool_size") == FlagName("db_pool", "size") == "db_pool_size"
    ensures FlagName("Zk", "hosts") == FlagName("zk", "hosts") == "zk_hosts"
    ensures FlagName("default", "port") == FlagName("DEFAULT", "port") == "port"
  {
    assert Upper("db") == "DB";
    assert Lower("db") == "db";
    assert Upper("db_pool") == "DB_POOL";
    assert Lower("db_pool") == "db_pool";
    assert Upper("Zk") == "ZK" && Upper("zk") == "ZK";
    assert Lower("Zk") == "zk" && Lower("zk") == "zk";
    assert Upper("default") == "DEFAULT";
    assert Upper("DEFAULT") == "DEFAULT";
  }

  /** Replacing `_` by `-` is not injective either: two distinct flags can ask
      for the same long option, and the second `define` then fails. */
  lemma LongOptionsCollide()
    ensures LongOption("db_pool") == LongOption("db-pool") == "--db-pool"
  {
  }
}
