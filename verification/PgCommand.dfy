/** The Postgres container command: the printed command line, the install wrapper
    around it, and the test for WAL archiving that reads it back by substring. */
module PgCommand {
  import opened Text
  import opened Shell

  const PRELOAD := "shared_preload_libraries="

  const BASELINE_ARGS: seq<string> := [
    PRELOAD + "pg_stat_statements,pgaudit,auto_explain",
    "log_line_prefix=%m [%p] user=%u,db=%d ",
    "auto_explain.log_min_duration=1000"
  ]

  const COPY := "archive_command="

  const ARCHIVE_MODE := "archive_mode=on"

  const WAL_ARGS: seq<string> := [
    ARCHIVE_MODE,
    COPY + "test ! -f /wal_archive/%f && cp %p /wal_archive/%f",
    "wal_level=replica",
    "archive_timeout=300"
  ]

  function PgArgs(walArchiving: bool, extra: seq<string>): seq<string>
  {
    BASELINE_ARGS + (if walArchiving then WAL_ARGS else []) + extra
  }

  function Flags(args: seq<string>): string
  {
    if args == [] then ""
    else if |args| == 1 then "-c " + Quote(args[0])
    else "-c " + Quote(args[0]) + " " + Flags(args[1..])
  }

  /** `_postgres_command_line` */
  function CommandLine(args: seq<string>): string
  {
    "postgres " + Flags(args)
  }

  /** `image.rsplit(":", 1)[-1]` */
  function Tag(image: string): string
    decreases |image|
  {
    var i := IndexOf(image, ':');
    if i == |image| then image else Tag(image[i + 1..])
  }

  /** What follows the last colon, or all of it. */
  lemma {:induction false} TagIsLast(before: string, tag: string)
    requires ':' !in tag
    ensures Tag(tag) == tag && Tag(before + ":" + tag) == tag
    decreases |before|
  {
    var image := before + ":" + tag;
    assert forall k | 0 <= k < |tag| :: tag[k] in tag;
    assert IndexOf(tag, ':') == |tag|;
    assert image[|before|] == ':';
    var i := IndexOf(image, ':');
    if i < |before| {
      assert image[i + 1..] == before[i + 1..] + ":" + tag;
      TagIsLast(before[i + 1..], tag);
    } else {
      assert image[i + 1..] == tag;
    }
  }

  /** What an argument gives a setting, spelled `key=value`. */
  function Given(arg: string, key: string): Option<string>
  {
    if |key| < |arg| && arg[..|key|] == key && arg[|key|] == '=' then Some(arg[|key| + 1..]) else None
  }

  /** The value in force: of several, postgres takes the last. */
  function Setting(args: seq<string>, key: string): Option<string>
  {
    if args == [] then None
    else
      var last := Given(args[|args| - 1], key);
      if last.Some? then last else Setting(args[..|args| - 1], key)
  }

  lemma {:induction false} SettingAppend(a: seq<string>, b: seq<string>, key: string)
    ensures Setting(a + b, key) == if Setting(b, key).Some? then Setting(b, key) else Setting(a, key)
    decreases |b|
  {
    if b == [] {
      assert a + b == a;
    } else {
      assert (a + b)[..|a + b| - 1] == a + b[..|b| - 1];
      SettingAppend(a, b[..|b| - 1], key);
    }
  }

  /** The extra arguments override all others, those for archiving the baseline, which
      holds otherwise. */
  lemma SettingsOverride(walArchiving: bool, extra: seq<string>, key: string)
    ensures Setting(PgArgs(walArchiving, extra), key)
         == if Setting(extra, key).Some? then Setting(extra, key)
            else if walArchiving && Setting(WAL_ARGS, key).Some? then Setting(WAL_ARGS, key)
            else Setting(BASELINE_ARGS, key)
  {
    hide Setting;
    var wal := if walArchiving then WAL_ARGS else [];
    assert BASELINE_ARGS + [] == BASELINE_ARGS;
    SettingAppend(BASELINE_ARGS + wal, extra, key);
    SettingAppend(BASELINE_ARGS, wal, key);
    NoSetting(key);
  }

  lemma NoSetting(key: string)
    ensures Setting([], key) == None
  {}

  /** The libraries are preloaded unless the extra arguments say otherwise; archiving is on
      exactly when asked for, unless they do. */
  lemma BaselineApplies(walArchiving: bool, extra: seq<string>)
    ensures Setting(extra, "shared_preload_libraries") == None ==>
              Setting(PgArgs(walArchiving, extra), "shared_preload_libraries")
                == Some("pg_stat_statements,pgaudit,auto_explain")
    ensures Setting(extra, "archive_mode") == None ==>
              Setting(PgArgs(walArchiving, extra), "archive_mode") == if walArchiving then Some("on") else None
  {
    SettingsOverride(walArchiving, extra, "shared_preload_libraries");
    SettingsOverride(walArchiving, extra, "archive_mode");
    FirstOfThree("shared_preload_libraries", "pg_stat_statements,pgaudit,auto_explain");
    WalSettings();
  }

  lemma FirstOfThree(key: string, value: string)
    requires key == "shared_preload_libraries" && value == "pg_stat_statements,pgaudit,auto_explain"
    ensures Setting(BASELINE_ARGS, key) == Some(value)
  {
    Differs(BASELINE_ARGS[1], key, 0);
    Differs(BASELINE_ARGS[2], key, 0);
    assert BASELINE_ARGS[0][..24] == key && BASELINE_ARGS[0][25..] == value;
    SettingOfThree(BASELINE_ARGS, key);
  }

  lemma WalSettings()
    ensures Setting(WAL_ARGS, "archive_mode") == Some("on") && Setting(BASELINE_ARGS, "archive_mode") == None
    ensures Setting(WAL_ARGS, "shared_preload_libraries") == None
  {
    hide Given;
    BaselineModes();
    WalModes();
    WalLibraries();
    SettingOfThree(BASELINE_ARGS, "archive_mode");
    assert WAL_ARGS[..3] == [WAL_ARGS[0], WAL_ARGS[1], WAL_ARGS[2]];
    SettingOfThree(WAL_ARGS[..3], "archive_mode");
    SettingOfThree(WAL_ARGS[..3], "shared_preload_libraries");
  }

  lemma BaselineModes()
    ensures forall i | 0 <= i < 3 :: Given(BASELINE_ARGS[i], "archive_mode") == None
  {
    Differs(BASELINE_ARGS[0], "archive_mode", 0);
    Differs(BASELINE_ARGS[1], "archive_mode", 0);
    Differs(BASELINE_ARGS[2], "archive_mode", 1);
  }

  lemma WalModes()
    ensures Given(WAL_ARGS[0], "archive_mode") == Some("on")
    ensures forall i | 1 <= i < 4 :: Given(WAL_ARGS[i], "archive_mode") == None
  {
    assert WAL_ARGS[0][..12] == "archive_mode" && WAL_ARGS[0][13..] == "on";
    assert WAL_ARGS[1][8] == 'c' && WAL_ARGS[3][8] == 't' && "archive_mode"[8] == 'm';
    Differs(WAL_ARGS[1], "archive_mode", 8);
    Differs(WAL_ARGS[2], "archive_mode", 0);
    Differs(WAL_ARGS[3], "archive_mode", 8);
  }

  lemma WalLibraries()
    ensures forall i | 0 <= i < 4 :: Given(WAL_ARGS[i], "shared_preload_libraries") == None
  {
    Differs(WAL_ARGS[0], "shared_preload_libraries", 0);
    Differs(WAL_ARGS[1], "shared_preload_libraries", 0);
    Differs(WAL_ARGS[2], "shared_preload_libraries", 0);
    Differs(WAL_ARGS[3], "shared_preload_libraries", 0);
  }

  lemma Differs(arg: string, key: string, k: nat)
    requires k < |key| && k < |arg| && arg[k] != key[k]
    ensures Given(arg, key) == None
  {
    if |key| < |arg| {
      assert arg[..|key|][k] == arg[k];
    }
  }

  lemma SettingOfThree(args: seq<string>, key: string)
    requires |args| == 3 && Given(args[1], key) == None && Given(args[2], key) == None
    ensures Setting(args, key) == Given(args[0], key)
  {
    assert args[..2][..1] == [args[0]] && args[..2][1] == args[1];
    assert [args[0]][..0] == [];
    hide Given;
    assert Setting([args[0]], key) == Given(args[0], key) by {
      NoSetting(key);
    }
  }

  function Then(word: string, rest: string): string
  {
    word + " " + rest
  }

  function ExecScript(command: string): string
  {
    Then(">/dev/null", Then("&&", Then("exec", Then("docker-entrypoint.sh", command))))
  }

  function PackageScript(major: string, command: string): string
  {
    Then("postgresql-" + major + "-pgaudit",
    Then("postgresql-" + major + "-hypopg",
    Then("postgresql-" + major + "-repack", ExecScript(command))))
  }

  /** The script handed to `sh -c`, one space between its pieces. */
  function InstallScript(major: string, command: string): string
  {
    Then("apt-get", Then("update", Then("-qq", Then("&&",
    Then("DEBIAN_FRONTEND=noninteractive", Then("apt-get", Then("install", Then("-y", Then("-qq",
    PackageScript(major, command))))))))))
  }

  /** `_postgres_extensions_install_wrapper` */
  function InstallWrapper(image: string, command: string): seq<string>
  {
    ["sh", "-c", InstallScript(Quote(Tag(image)), command)]
  }

  /** The command `_run_container` gives a container. */
  function ContainerCommand(image: string, walArchiving: bool, extra: seq<string>): seq<string>
  {
    InstallWrapper(image, CommandLine(PgArgs(walArchiving, extra)))
  }

  /** `any("archive_mode=on" in str(part) for part in cmd)` */
  predicate Archiving(cmd: seq<string>)
  {
    exists i :: 0 <= i < |cmd| && Contains(ARCHIVE_MODE, cmd[i])
  }

  // What the shell reads

  function FlagTokens(args: seq<string>): seq<Token>
  {
    if args == [] then [] else [Word("-c"), Word(args[0])] + FlagTokens(args[1..])
  }

  function Prepend(tokens: seq<Token>, rest: Option<seq<Token>>): Option<seq<Token>>
  {
    if rest.Some? then Some(tokens + rest.value) else None
  }

  lemma LexWord(w: string, rest: string)
    requires AllSafe(w) && w != ""
    ensures Lex(Then(w, rest), Bare, None) == Prepend([Word(w)], Lex(rest, Bare, None))
  {
    hide Lex, AllSafe;
    LexSafe(w, " " + rest, None);
    assert Then(w, rest) == w + (" " + rest);
    LexBlank(rest, Some(w));
    assert Plus(None, w) == Some(w) by { assert "" + w == w; }
  }

  lemma LexEnd(word: Option<string>)
    ensures Lex("", Bare, word) == Some(if word.Some? then [Word(word.value)] else [])
  {
    assert word.Some? ==> [Word(word.value)] + [] == [Word(word.value)];
  }

  lemma LexArgument(arg: string, rest: string)
    ensures Lex(Quote(arg) + rest, Bare, None) == Lex(rest, Bare, Some(arg))
  {
    hide Lex, Quote;
    LexQuote(arg, rest, None);
    assert Plus(None, arg) == Some(arg) by { assert "" + arg == arg; }
  }

  lemma {:induction false} LexFlags(args: seq<string>)
    ensures Lex(Flags(args), Bare, None) == Some(FlagTokens(args))
    decreases |args|
  {
    hide Lex, Quote;
    if args == [] {
      LexEnd(None);
    } else {
      var arg := args[0];
      var rest := if |args| == 1 then "" else " " + Flags(args[1..]);
      assert Flags(args) == Then("-c", Quote(arg) + rest) by { assert Quote(arg) + "" == Quote(arg); }
      LexWord("-c", Quote(arg) + rest);
      LexArgument(arg, rest);
      if |args| == 1 {
        LexEnd(Some(arg));
        assert FlagTokens(args[1..]) == [];
        assert FlagTokens(args) == [Word("-c")] + [Word(arg)];
      } else {
        LexFlags(args[1..]);
        LexBlank(Flags(args[1..]), Some(arg));
        assert FlagTokens(args) == [Word("-c")] + ([Word(arg)] + FlagTokens(args[1..]));
      }
    }
  }

  function CommandTokens(args: seq<string>): seq<Token>
  {
    [Word("postgres")] + FlagTokens(args)
  }

  /** The printed command line reads back as `postgres` and, for every argument
      whatever its characters, `-c` and that argument unchanged. */
  lemma CommandLineReadsBack(args: seq<string>)
    ensures Lex(CommandLine(args), Bare, None) == Some(CommandTokens(args))
  {
    hide Lex, Flags;
    LexFlags(args);
    assert CommandLine(args) == Then("postgres", Flags(args));
    LexWord("postgres", Flags(args));
  }

  lemma LexAnd(rest: string)
    ensures Lex(Then("&&", rest), Bare, None) == Prepend([Operator("&&")], Lex(rest, Bare, None))
  {
    var s := Then("&&", rest);
    assert s[..2] == "&&" && s[2..] == " " + rest;
    assert OperatorAt(s) == 2;
    LexBlank(rest, None);
  }

  lemma LexRedirect(rest: string)
    requires rest != "" && rest[0] == '/'
    ensures Lex(">" + rest, Bare, None) == Prepend([Operator(">")], Lex(rest, Bare, None))
  {
    var s := ">" + rest;
    assert s[..1] == ">" && s[1..] == rest;
    assert s[..2][1] == '/';
    assert OperatorAt(s) == 1;
  }

  lemma PrependTwice(a: seq<Token>, b: seq<Token>, rest: Option<seq<Token>>)
    ensures Prepend(a, Prepend(b, rest)) == Prepend(a + b, rest)
  {
    if rest.Some? {
      assert a + (b + rest.value) == a + b + rest.value;
    }
  }

  /** A version quoted in the middle of a package name stays part of that one word. */
  lemma LexPackage(major: string, suffix: string, rest: string)
    requires AllSafe(suffix) && suffix != ""
    ensures Lex(Then("postgresql-" + Quote(major) + suffix, rest), Bare, None)
         == Prepend([Word("postgresql-" + major + suffix)], Lex(rest, Bare, None))
  {
    hide Lex, Quote;
    var after := suffix + (" " + rest);
    assert Then("postgresql-" + Quote(major) + suffix, rest) == "postgresql-" + (Quote(major) + after);
    LexSafe("postgresql-", Quote(major) + after, None);
    LexQuote(major, after, Plus(None, "postgresql-"));
    LexSafe(suffix, " " + rest, Plus(Plus(None, "postgresql-"), major));
    LexBlank(rest, Some("postgresql-" + major + suffix));
    assert "" + "postgresql-" + major + suffix == "postgresql-" + major + suffix;
  }

  const UPDATE_TOKENS := [Word("apt-get"), Word("update"), Word("-qq"), Operator("&&")]
  const INSTALL_TOKENS := [Word("DEBIAN_FRONTEND=noninteractive"), Word("apt-get"), Word("install"), Word("-y"),
        Word("-qq")]
  const EXEC_TOKENS := [Operator(">"), Word("/dev/null"), Operator("&&"), Word("exec"), Word("docker-entrypoint.sh")]

  function PackageTokens(major: string): seq<Token>
  {
    [ Word("postgresql-" + major + "-pgaudit"), Word("postgresql-" + major + "-hypopg"),
      Word("postgresql-" + major + "-repack") ]
  }

  lemma LexDevNull(rest: string)
    ensures Lex(Then(">/dev/null", rest), Bare, None)
         == Prepend([Operator(">")], Prepend([Word("/dev/null")], Lex(rest, Bare, None)))
  {
    hide Lex, Prepend;
    LexWord("/dev/null", rest);
    LexRedirect(Then("/dev/null", rest));
    assert Then(">/dev/null", rest) == ">" + Then("/dev/null", rest);
  }

  lemma LexExec(command: string)
    ensures Lex(ExecScript(command), Bare, None) == Prepend(EXEC_TOKENS, Lex(command, Bare, None))
  {
    hide Lex, Prepend;
    var r1 := Then("docker-entrypoint.sh", command);
    var r2 := Then("exec", r1);
    var r3 := Then("&&", r2);
    LexWord("docker-entrypoint.sh", command);
    LexWord("exec", r1);
    LexAnd(r2);
    LexDevNull(r3);
    ExecTokens(Lex(command, Bare, None));
  }

  lemma ExecTokens(end: Option<seq<Token>>)
    ensures Prepend([Operator(">")], Prepend([Word("/dev/null")], Prepend([Operator("&&")],
              Prepend([Word("exec")], Prepend([Word("docker-entrypoint.sh")], end))))) == Prepend(EXEC_TOKENS, end)
  {
    var e := EXEC_TOKENS;
    PrependTwice([e[3]], [e[4]], end);
    PrependTwice([e[2]], [e[3]] + [e[4]], end);
    PrependTwice([e[1]], [e[2]] + ([e[3]] + [e[4]]), end);
    PrependTwice([e[0]], [e[1]] + ([e[2]] + ([e[3]] + [e[4]])), end);
    assert e == [e[0]] + ([e[1]] + ([e[2]] + ([e[3]] + [e[4]])));
  }

  lemma LexPackages(major: string, command: string)
    ensures Lex(PackageScript(Quote(major), command), Bare, None)
         == Prepend(PackageTokens(major) + EXEC_TOKENS, Lex(command, Bare, None))
  {
    hide Lex, Quote, ExecScript;
    var t0 := ExecScript(command);
    LexExec(command);
    var t1 := Then("postgresql-" + Quote(major) + "-repack", t0);
    LexPackage(major, "-repack", t0);
    var t2 := Then("postgresql-" + Quote(major) + "-hypopg", t1);
    LexPackage(major, "-hypopg", t1);
    LexPackage(major, "-pgaudit", t2);
    var p, end := PackageTokens(major), Lex(command, Bare, None);
    PrependTwice([p[2]], EXEC_TOKENS, end);
    PrependTwice([p[1]], [p[2]] + EXEC_TOKENS, end);
    PrependTwice([p[0]], [p[1]] + ([p[2]] + EXEC_TOKENS), end);
    assert p + EXEC_TOKENS == [p[0]] + ([p[1]] + ([p[2]] + EXEC_TOKENS));
  }

  lemma LexUpdate(rest: string)
    ensures Lex(Then("apt-get", Then("update", Then("-qq", Then("&&", rest)))), Bare, None)
         == Prepend(UPDATE_TOKENS, Lex(rest, Bare, None))
  {
    hide Lex;
    var r1 := Then("&&", rest);
    var r2 := Then("-qq", r1);
    LexAnd(rest);
    LexWord("-qq", r1);
    LexWord("update", r2);
    LexWord("apt-get", Then("update", r2));
    var u, end := UPDATE_TOKENS, Lex(rest, Bare, None);
    PrependTwice([u[2]], [u[3]], end);
    PrependTwice([u[1]], [u[2]] + [u[3]], end);
    PrependTwice([u[0]], [u[1]] + ([u[2]] + [u[3]]), end);
    assert u == [u[0]] + ([u[1]] + ([u[2]] + [u[3]]));
  }

  lemma LexInstall(rest: string)
    ensures Lex(Then("DEBIAN_FRONTEND=noninteractive", Then("apt-get", Then("install", Then("-y", Then("-qq",
          rest))))), Bare, None)
         == Prepend(INSTALL_TOKENS, Lex(rest, Bare, None))
  {
    hide Lex, Prepend, Then;
    var r1 := Then("-qq", rest);
    var r2 := Then("-y", r1);
    var r3 := Then("install", r2);
    LexWord("-qq", rest);
    LexWord("-y", r1);
    LexWord("install", r2);
    LexWord("apt-get", r3);
    LexFrontend(Then("apt-get", r3));
    InstallTokens(Lex(rest, Bare, None));
  }

  lemma LexFrontend(rest: string)
    ensures Lex(Then("DEBIAN_FRONTEND=noninteractive", rest), Bare, None)
         == Prepend([Word("DEBIAN_FRONTEND=noninteractive")], Lex(rest, Bare, None))
  {
    hide Lex, Prepend;
    LexWord("DEBIAN_FRONTEND=noninteractive", rest);
  }

  lemma InstallTokens(end: Option<seq<Token>>)
    ensures Prepend([Word("DEBIAN_FRONTEND=noninteractive")], Prepend([Word("apt-get")], Prepend([Word("install")],
              Prepend([Word("-y")], Prepend([Word("-qq")], end))))) == Prepend(INSTALL_TOKENS, end)
  {
    var u := INSTALL_TOKENS;
    PrependTwice([u[3]], [u[4]], end);
    PrependTwice([u[2]], [u[3]] + [u[4]], end);
    PrependTwice([u[1]], [u[2]] + ([u[3]] + [u[4]]), end);
    PrependTwice([u[0]], [u[1]] + ([u[2]] + ([u[3]] + [u[4]])), end);
    assert u == [u[0]] + ([u[1]] + ([u[2]] + ([u[3]] + [u[4]])));
  }

  /** The whole install script reads back as its own words, with whatever the image
      tag holds kept inside the three package names, followed by the command's. */
  lemma InstallScriptReadsBack(image: string, args: seq<string>)
    ensures Lex(InstallWrapper(image, CommandLine(args))[2], Bare, None)
         == Some(UPDATE_TOKENS + INSTALL_TOKENS + PackageTokens(Tag(image)) + EXEC_TOKENS + CommandTokens(args))
  {
    hide Lex, Quote, CommandLine, Tag, Then, PackageScript;
    var major, command := Tag(image), CommandLine(args);
    CommandLineReadsBack(args);
    var rest := PackageScript(Quote(major), command);
    LexPackages(major, command);
    LexInstall(rest);
    LexUpdate(Then("DEBIAN_FRONTEND=noninteractive", Then("apt-get", Then("install", Then("-y", Then("-qq", rest))))));
    var p := PackageTokens(major) + EXEC_TOKENS;
    var end := Lex(command, Bare, None);
    PrependTwice(INSTALL_TOKENS, p, end);
    PrependTwice(UPDATE_TOKENS, INSTALL_TOKENS + p, end);
    assert UPDATE_TOKENS + (INSTALL_TOKENS + p) + CommandTokens(args)
        == UPDATE_TOKENS + INSTALL_TOKENS + PackageTokens(major) + EXEC_TOKENS + CommandTokens(args);
  }

  // What the substring test reads

  lemma LacksCharacter(p: string, s: string, c: char)
    requires c in p && c !in s
    ensures !Contains(p, s)
  {
    forall i ensures !OccursAt(p, s, i) {
      var k :| 0 <= k < |p| && p[k] == c;
      if 0 <= i && i + |p| <= |s| {
        assert s[i..i + |p|][k] == s[i + k] && s[i + k] in s;
      }
    }
  }

  lemma FixedTextLacks()
    ensures !Contains(ARCHIVE_MODE, "postgres") && !Contains(ARCHIVE_MODE, "-c") && !Contains(ARCHIVE_MODE, "sh")
  {
    hide Contains;
    LacksCharacter(ARCHIVE_MODE, "postgres", 'v');
    LacksCharacter(ARCHIVE_MODE, "-c", 'v');
    LacksCharacter(ARCHIVE_MODE, "sh", 'v');
  }

  lemma PreloadLacks()
    ensures !Contains(ARCHIVE_MODE, BASELINE_ARGS[0])
  {
    hide Contains;
    assert 'v' !in PRELOAD && 'v' !in "pg_stat_statements,pgaudit,auto_explain";
    LacksCharacter(ARCHIVE_MODE, BASELINE_ARGS[0], 'v');
  }

  lemma LogPrefixLacks()
    ensures !Contains(ARCHIVE_MODE, BASELINE_ARGS[1])
  {
    hide Contains;
    LacksCharacter(ARCHIVE_MODE, BASELINE_ARGS[1], 'v');
  }

  lemma ExplainLacks()
    ensures !Contains(ARCHIVE_MODE, BASELINE_ARGS[2])
  {
    hide Contains;
    LacksCharacter(ARCHIVE_MODE, BASELINE_ARGS[2], 'v');
  }

  lemma BaselineLacks(i: nat)
    requires i < |BASELINE_ARGS|
    ensures !Contains(ARCHIVE_MODE, BASELINE_ARGS[i])
  {
    hide Contains;
    PreloadLacks();
    LogPrefixLacks();
    ExplainLacks();
  }

  /** A fixed word in front adds no occurrence. */
  lemma ContainsThen(word: string, rest: string, c: char)
    requires c in ARCHIVE_MODE && c !in word
    ensures Contains(ARCHIVE_MODE, Then(word, rest)) <==> Contains(ARCHIVE_MODE, rest)
  {
    hide Contains;
    LacksCharacter(ARCHIVE_MODE, word, c);
    assert Then(word, rest) == word + [' '] + rest;
    ContainsAcross(ARCHIVE_MODE, word, ' ', rest);
  }

  ghost predicate AnyContains(args: seq<string>)
  {
    exists i :: 0 <= i < |args| && Contains(ARCHIVE_MODE, args[i])
  }

  lemma ContainsFlag(arg: string)
    ensures Contains(ARCHIVE_MODE, "-c " + Quote(arg)) <==> Contains(ARCHIVE_MODE, arg)
  {
    hide Contains, Quote;
    FixedTextLacks();
    ContainsQuote(ARCHIVE_MODE, arg);
    ContainsAcross(ARCHIVE_MODE, "-c", ' ', Quote(arg));
    assert "-c " + Quote(arg) == "-c" + [' '] + Quote(arg);
  }

  lemma AnyContainsHead(args: seq<string>)
    requires args != []
    ensures AnyContains(args) <==> Contains(ARCHIVE_MODE, args[0]) || AnyContains(args[1..])
  {
    hide Contains;
    if AnyContains(args[1..]) {
      var i :| 0 <= i < |args[1..]| && Contains(ARCHIVE_MODE, args[1..][i]);
      assert args[i + 1] == args[1..][i];
    }
    if AnyContains(args) && !Contains(ARCHIVE_MODE, args[0]) {
      var i :| 0 <= i < |args| && Contains(ARCHIVE_MODE, args[i]);
      assert args[1..][i - 1] == args[i];
    }
  }

  lemma {:induction false} ContainsFlags(args: seq<string>)
    ensures Contains(ARCHIVE_MODE, Flags(args)) <==> AnyContains(args)
    decreases |args|
  {
    hide Contains, Quote;
    if args == [] {
      NotInEmpty(ARCHIVE_MODE);
    } else {
      AnyContainsHead(args);
      ContainsFlag(args[0]);
      ContainsFlags(args[1..]);
      if |args| > 1 {
        ContainsAcross(ARCHIVE_MODE, "-c " + Quote(args[0]), ' ', Flags(args[1..]));
        assert Flags(args) == "-c " + Quote(args[0]) + [' '] + Flags(args[1..]);
      }
    }
  }

  lemma ContainsPackage(q: string, name: string, rest: string, c: char)
    requires c in ARCHIVE_MODE && c !in name
    ensures Contains(ARCHIVE_MODE, Then("postgresql-" + q + "-" + name, rest))
       <==> Contains(ARCHIVE_MODE, q) || Contains(ARCHIVE_MODE, rest)
  {
    hide Contains;
    var p := ARCHIVE_MODE;
    LacksCharacter(p, "postgresql", 'v');
    LacksCharacter(p, name, c);
    var s1 := name + [' '] + rest;
    var s2 := q + ['-'] + s1;
    ContainsAcross(p, name, ' ', rest);
    ContainsAcross(p, q, '-', s1);
    ContainsAcross(p, "postgresql", '-', s2);
    assert Then("postgresql-" + q + "-" + name, rest) == "postgresql" + ['-'] + s2;
  }

  lemma ContainsScript(q: string, command: string)
    ensures Contains(ARCHIVE_MODE, InstallScript(q, command))
       <==> Contains(ARCHIVE_MODE, q) || Contains(ARCHIVE_MODE, command)
  {
    hide Contains, Then, PackageScript, ExecScript;
    ContainsExec(command);
    ContainsPackages(q, command);
    var i5 := Then("DEBIAN_FRONTEND=noninteractive", Then("apt-get", Then("install", Then("-y", Then("-qq",
          PackageScript(q, command))))));
    ContainsInstall(PackageScript(q, command));
    var i6 := Then("&&", i5);
    var i7 := Then("-qq", i6);
    ContainsThen("&&", i5, 'v');
    ContainsThen("-qq", i6, 'v');
    ContainsThen("update", i7, 'v');
    ContainsThen("apt-get", Then("update", i7), 'v');
  }

  lemma ContainsExec(command: string)
    ensures Contains(ARCHIVE_MODE, ExecScript(command)) <==> Contains(ARCHIVE_MODE, command)
  {
    hide Contains, Then;
    var e1 := Then("docker-entrypoint.sh", command);
    var e2 := Then("exec", e1);
    ContainsThen("docker-entrypoint.sh", command, 'v');
    ContainsThen("exec", e1, 'v');
    ContainsThen("&&", e2, 'v');
    ContainsThen(">/dev/null", Then("&&", e2), 'm');
  }

  lemma ContainsInstall(rest: string)
    ensures Contains(ARCHIVE_MODE, Then("DEBIAN_FRONTEND=noninteractive", Then("apt-get", Then("install", Then("-y",
          Then("-qq", rest))))))
       <==> Contains(ARCHIVE_MODE, rest)
  {
    hide Contains, Then;
    var i1 := Then("-qq", rest);
    var i2 := Then("-y", i1);
    var i3 := Then("install", i2);
    ContainsThen("-qq", rest, 'v');
    ContainsThen("-y", i1, 'v');
    ContainsThen("install", i2, 'v');
    ContainsThen("apt-get", i3, 'v');
    ContainsThen("DEBIAN_FRONTEND=noninteractive", Then("apt-get", i3), 'h');
  }

  lemma ContainsPackages(q: string, command: string)
    ensures Contains(ARCHIVE_MODE, PackageScript(q, command))
       <==> Contains(ARCHIVE_MODE, q) || Contains(ARCHIVE_MODE, ExecScript(command))
  {
    hide Contains, Then, ExecScript;
    var t1 := Then("postgresql-" + q + "-" + "repack", ExecScript(command));
    var t2 := Then("postgresql-" + q + "-" + "hypopg", t1);
    ContainsPackage(q, "repack", ExecScript(command), 'v');
    ContainsPackage(q, "hypopg", t1, 'v');
    ContainsPackage(q, "pgaudit", t2, 'v');
    assert "postgresql-" + q + "-" + "repack" == "postgresql-" + q + "-repack";
    assert "postgresql-" + q + "-" + "hypopg" == "postgresql-" + q + "-hypopg";
    assert "postgresql-" + q + "-" + "pgaudit" == "postgresql-" + q + "-pgaudit";
  }

  lemma AnyContainsArgs(walArchiving: bool, extra: seq<string>)
    ensures AnyContains(PgArgs(walArchiving, extra)) <==> walArchiving || AnyContains(extra)
  {
    hide Contains;
    var args := PgArgs(walArchiving, extra);
    var k := if walArchiving then 7 else 3;
    if walArchiving {
      assert args[3] == ARCHIVE_MODE;
      ContainsItself();
    }
    if AnyContains(extra) {
      var i :| 0 <= i < |extra| && Contains(ARCHIVE_MODE, extra[i]);
      assert args[i + k] == extra[i];
    }
    if AnyContains(args) && !walArchiving {
      var i :| 0 <= i < |args| && Contains(ARCHIVE_MODE, args[i]);
      assert args == BASELINE_ARGS + extra;
      if i < 3 {
        BaselineLacks(i);
      }
      assert args[i] == extra[i - 3];
    }
  }

  lemma ContainsItself()
    ensures Contains(ARCHIVE_MODE, ARCHIVE_MODE)
  {
    assert ARCHIVE_MODE[0..0 + |ARCHIVE_MODE|] == ARCHIVE_MODE;
    assert OccursAt(ARCHIVE_MODE, ARCHIVE_MODE, 0);
  }

  /** The substring test on a printed command: true exactly when the container was
      built with WAL archiving, or the tag or an extra argument holds the setting
      itself. No quoting, spacing or fixed text can forge or hide it. */
  lemma ArchivingExactly(image: string, walArchiving: bool, extra: seq<string>)
    ensures Archiving(ContainerCommand(image, walArchiving, extra))
       <==> walArchiving || Contains(ARCHIVE_MODE, Tag(image)) || AnyContains(extra)
  {
    hide Contains, Quote, Tag;
    FixedTextLacks();
    var args := PgArgs(walArchiving, extra);
    AnyContainsArgs(walArchiving, extra);
    ContainsFlags(args);
    ContainsAcross(ARCHIVE_MODE, "postgres", ' ', Flags(args));
    assert CommandLine(args) == "postgres" + [' '] + Flags(args);
    ContainsQuote(ARCHIVE_MODE, Tag(image));
    ContainsScript(Quote(Tag(image)), CommandLine(args));
    var cmd := ContainerCommand(image, walArchiving, extra);
    assert cmd[0] == "sh" && cmd[1] == "-c" && |cmd| == 3;
    assert cmd[2] == InstallScript(Quote(Tag(image)), CommandLine(args));
    assert Archiving(cmd) <==> Contains(ARCHIVE_MODE, cmd[2]);
  }

  /** The detector answers for what was asked of the container, not for what is in force: an
      extra argument that turns archiving off again goes unseen, and nothing else does. */
  lemma DetectorMissesOverride(image: string, extra: seq<string>)
    ensures Archiving(ContainerCommand(image, true, extra))
    ensures Setting(PgArgs(true, extra), "archive_mode") == Some("on") <==>
              Setting(extra, "archive_mode") == None || Setting(extra, "archive_mode") == Some("on")
    ensures Setting(["archive_mode=off"], "archive_mode") == Some("off")
  {
    ArchivingExactly(image, true, extra);
    hide Archiving, ContainerCommand, Given, PgArgs;
    SettingsOverride(true, extra, "archive_mode");
    WalSettings();
    TurnedOff();
  }

  lemma TurnedOff()
    ensures Setting(["archive_mode=off"], "archive_mode") == Some("off")
  {
    assert "archive_mode=off"[..12] == "archive_mode" && "archive_mode=off"[13..] == "off";
    assert ["archive_mode=off"][..0] == [];
  }
}
