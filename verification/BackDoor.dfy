/** Back-door operations as shell commands that a POSIX shell splits back into the same arguments. */
module BackDoor {
  import opened Shell
  import opened Text
  import opened Wrappers
  import IniEdit

  datatype ConfigBackend = Dconf | Gsettings(schema: string) | IniFile(path: string)

  datatype BackDoorOp =
    | SetConfig(backend: ConfigBackend, key: string, value: string)
    | RunSibling(tool: string, input: string, output: string, args: seq<string>)

  // ---------- printing ----------

  function Blank(s: string): bool {
    Trim(s) == ""
  }

  function ToCommand(op: BackDoorOp): Option<string> {
    match op
    case SetConfig(backend, key, value) =>
      if Blank(key) then None
      else (
        match backend
        case Dconf => if StartsWith(key, "/") then Some(Joined(["dconf", "write", Shq(key), Shq(value)])) else None
        case Gsettings(schema) =>
          if Blank(schema) then None else Some(Joined(["gsettings", "set", Shq(schema), Shq(key), Shq(value)]))
        case IniFile(path) =>
          if Blank(path) then None else Some(Joined(IniWords(path, key, value)))
      )
    case RunSibling(tool, input, output, args) =>
      if Blank(tool) || Blank(input) || Blank(output) then None
      else Some(Joined([Shq(tool), Shq(input)] + AllQuoted(args) + [Shq(output)]))
  }

  // Replace the line of this key where there is one, append it where there is none.
  function IniWords(path: string, key: string, value: string): seq<string> {
    ["grep", "-q", Shq(IniEdit.KeyPattern(key)), Shq(path), "&&",
     "sed", "-i", Shq(IniEdit.KeyScript(key, value)), Shq(path), "||",
     "printf", "'%s\\n'", Shq(IniEdit.Setting(key, value)), ">>", Shq(path)]
  }

  // ---------- reading back ----------

  /** A sibling tool is run with exactly its slots as arguments. */
  lemma {:induction false} RunSiblingReadBack(tool: string, input: string, output: string, args: seq<string>)
    ensures var cmd := ToCommand(RunSibling(tool, input, output, args));
            && (cmd.Some? <==> Trim(tool) != "" && Trim(input) != "" && Trim(output) != "")
            && (cmd.Some? ==> Tokens(cmd.value) == Some(Words([tool, input] + args + [output])))
  {
    var all := [tool, input] + args + [output];
    MeansQuoted(all);
    JoinedReadExactly(AllQuoted(all), Words(all), true);
    assert AllQuoted(all) == [Shq(tool), Shq(input)] + AllQuoted(args) + [Shq(output)];
  }

  lemma {:induction false} Programs()
    ensures IsBareWord("dconf") && IsBareWord("write") && IsBareWord("gsettings") && IsBareWord("set")
    ensures IsBareWord("grep") && IsBareWord("-q") && IsBareWord("sed") && IsBareWord("-i") && IsBareWord("printf")
  {
  }

  // A program and its first words, then quoted arguments.
  lemma {:induction false} CallMeans(fixed: seq<string>, args: seq<string>)
    requires forall s | s in fixed :: IsBareWord(s)
    ensures Means(fixed + AllQuoted(args), Words(fixed + args), true)
  {
    MeansBare(fixed);
    MeansQuoted(args);
    MeansJoin(fixed, Words(fixed), true, AllQuoted(args), Words(args), true);
    assert Words(fixed) + Words(args) == Words(fixed + args);
  }

  // What the shell is meant to do about an ini file.
  function IniTokens(path: string, key: string, value: string): seq<Token> {
    Words(["grep", "-q"] + [IniEdit.KeyPattern(key), path])
    + ([Operator("&&")]
       + (Words(["sed", "-i"] + [IniEdit.KeyScript(key, value), path])
          + ([Operator("||")]
             + (Words(["printf"] + ["%s\\n", IniEdit.Setting(key, value)])
                + ([Operator(">>")] + Words([] + [path]))))))
  }

  lemma {:induction false} PercentShown()
    ensures Shq("%s\\n") == "'%s\\n'"
  {
    assert "%s\\n"[1..] == "s\\n" && "s\\n"[1..] == "\\n" && "\\n"[1..] == "n" && "n"[1..] == "";
    assert Escaped("n") == "n";
    assert Escaped("\\n") == "\\n";
    assert Escaped("s\\n") == "s\\n";
  }

  lemma {:induction false} IniGrouped(path: string, key: string, value: string)
    ensures IniWords(path, key, value)
            == (["grep", "-q"] + AllQuoted([IniEdit.KeyPattern(key), path]))
               + (["&&"]
                  + ((["sed", "-i"] + AllQuoted([IniEdit.KeyScript(key, value), path]))
                     + (["||"]
                        + ((["printf"] + AllQuoted(["%s\\n", IniEdit.Setting(key, value)]))
                           + ([">>"] + ([] + AllQuoted([path])))))))
  {
    PercentShown();
    assert AllQuoted(["%s\\n", IniEdit.Setting(key, value)]) == ["'%s\\n'", Shq(IniEdit.Setting(key, value))];
  }

  lemma {:induction false} IniMeans(path: string, key: string, value: string)
    ensures Means(IniWords(path, key, value), IniTokens(path, key, value), true)
  {
    Programs();
    var grep, sed := [IniEdit.KeyPattern(key), path], [IniEdit.KeyScript(key, value), path];
    var kv := IniEdit.Setting(key, value);
    CallMeans(["grep", "-q"], grep);
    CallMeans(["sed", "-i"], sed);
    CallMeans(["printf"], ["%s\\n", kv]);
    CallMeans([], [path]);
    ThenMeans(["printf"] + AllQuoted(["%s\\n", kv]), Words(["printf"] + ["%s\\n", kv]), true, ">>",
              [] + AllQuoted([path]), Words([] + [path]), true);
    var a, ta := (["printf"] + AllQuoted(["%s\\n", kv])) + ([">>"] + ([] + AllQuoted([path]))),
                 Words(["printf"] + ["%s\\n", kv]) + ([Operator(">>")] + Words([] + [path]));
    ThenMeans(["sed", "-i"] + AllQuoted(sed), Words(["sed", "-i"] + sed), true, "||", a, ta, true);
    ThenMeans(["grep", "-q"] + AllQuoted(grep), Words(["grep", "-q"] + grep), true, "&&",
              (["sed", "-i"] + AllQuoted(sed)) + (["||"] + a), Words(["sed", "-i"] + sed) + ([Operator("||")] + ta),
              true);
    IniGrouped(path, key, value);
  }

  function ConfigTokens(backend: ConfigBackend, key: string, value: string): seq<Token> {
    match backend
    case Dconf => Words(["dconf", "write"] + [key, value])
    case Gsettings(schema) => Words(["gsettings", "set"] + [schema, key, value])
    case IniFile(path) => IniTokens(path, key, value)
  }

  /** Writing a setting: with the slots it needs filled in, each command splits into exactly the program,
      its fixed words and operators, and the slots as single arguments. */
  lemma {:induction false} SetConfigReadBack(backend: ConfigBackend, key: string, value: string)
    ensures var cmd := ToCommand(SetConfig(backend, key, value));
            && (cmd.Some? <==> Trim(key) != "" && (match backend
                                               case Dconf => StartsWith(key, "/")
                                               case Gsettings(schema) => Trim(schema) != ""
                                               case IniFile(path) => Trim(path) != ""))
            && (cmd.Some? ==> Tokens(cmd.value) == Some(ConfigTokens(backend, key, value)))
  {
    Programs();
    match backend
    case Dconf =>
      CallMeans(["dconf", "write"], [key, value]);
      assert ["dconf", "write"] + AllQuoted([key, value]) == ["dconf", "write", Shq(key), Shq(value)];
      JoinedReadExactly(["dconf", "write", Shq(key), Shq(value)], Words(["dconf", "write"] + [key, value]), true);
    case Gsettings(schema) =>
      CallMeans(["gsettings", "set"], [schema, key, value]);
      var ss := ["gsettings", "set", Shq(schema), Shq(key), Shq(value)];
      assert ["gsettings", "set"] + AllQuoted([schema, key, value]) == ss;
      JoinedReadExactly(ss, Words(["gsettings", "set"] + [schema, key, value]), true);
    case IniFile(path) =>
      IniMeans(path, key, value);
      JoinedReadExactly(IniWords(path, key, value), IniTokens(path, key, value), true);
  }
}
