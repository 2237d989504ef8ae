/** Concrete runs of the model on the library's own example and test
    programs. */
module Scenarios {
  import opened Maybe
  import opened OptionType
  import opened Entities
  import opened Lookup
  import Registry
  import opened Tokenizer
  import opened Validator
  import opened Como

  /** A single-dash token finds the first option declaring it as its
      short switch. */
  lemma ShortLookup(opts: seq<Opt>, t: string, k: nat)
    requires |t| >= 2 && t[0] == '-' && t[1] != '-'
    requires k < |opts| && opts[k].shortopt == Some(t)
    requires forall j :: 0 <= j < k ==> opts[j].shortopt != Some(t)
    ensures FindOpt(opts, Some(t)) == Some(k)
  {
    assert t[..2][1] == t[1];
    assert !IsLongToken(t);
    var r := FindOpt(opts, Some(t));
    assert Designates(opts[k], Some(t));
  }

  /** The example program: a required single-valued "file" and a "debug"
      switch. */
  const SimpleRows := [
    SpecRow(Single, "file", Some("-f"), "File argument."),
    SpecRow(Switch, "debug", Some("-d"), "Enable debugging.")
  ]

  /** The help option every command with automatic help receives. */
  const HelpOpt := Opt(PNone | POpt | PHidden, "help", Some("-h"), "Display usage info.", "--help")

  const SimpleOpts := [
    HelpOpt,
    Opt(POne, "file", Some("-f"), "File argument.", "--file"),
    Opt(PNone | POpt, "debug", Some("-d"), "Enable debugging.", "--debug")
  ]

  function SimpleSession(args: seq<string>): Session {
    Session(args, 0,
      [Command("como_simple", "como_simple", Some("Programmer"), Some("2014"), SimpleOpts, None, [], ConfigCreate())],
      [CmdState(false, 0, None, [Fresh, Fresh, Fresh])], 0, true)
  }

  lemma SimpleReady(args: seq<string>)
    ensures Ready(SimpleSession(args))
  {
    var o := SimpleOpts;
    assert forall k :: 0 <= k < |o| ==> o[k].kind != Subcmd && !UnsafeArity(o[k].kind);
  }

  /** Registration of the example program. */
  lemma SimpleStart(argv: seq<string>)
    requires |argv| >= 1
    ensures ComoMaincmd(argv, "como_simple", "Programmer", "2014", SimpleRows) == SimpleSession(argv[1..])
    ensures ReadyTable(SimpleSession(argv[1..]).cmds)
  {
    var s := ComoMaincmd(argv, "como_simple", "Programmer", "2014", SimpleRows);
    SugarMeaning();
    assert FromRow(Registry.HelpRow) == HelpOpt;
    assert FromRow(SimpleRows[0]) == SimpleOpts[1];
    assert FromRow(SimpleRows[1]) == SimpleOpts[2];
    assert s.cmds[0].opts == Registry.BuildOpts(true, SimpleRows);
    assert s.cmds[0].opts == SimpleOpts;
    assert s.states[0].opts == [Fresh, Fresh, Fresh];
    SimpleReady(argv[1..]);
  }

  const SimpleArgs := ["-f", "example", "-d"]

  /** The state after "-f example" and after "-d". */
  function SimpleAfter(n: nat, opts: seq<OptState>): Session
    requires n >= 1
  {
    var s := SimpleSession(SimpleArgs);
    s.(cursor := n, states := [CmdState(false, n - 1, None, opts)])
  }

  lemma SimpleStep1()
    ensures Ready(SimpleSession(SimpleArgs))
    ensures Step(SimpleSession(SimpleArgs), 0)
      == Next(SimpleAfter(2, [Fresh, OptState(Some(["example"]), true), Fresh]))
  {
    SimpleReady(SimpleArgs);
    var s := SimpleSession(SimpleArgs);
    ShortLookup(SimpleOpts, "-f", 1);
    assert "-f" != "--" && IsOptToken("-f") && !IsOptToken("example");
    assert Step(s, 0) == StepOption(s, 0);
    assert TakesValue(POne);
    assert StepOption(s, 0) == StepValue(s, 0, 1);
    var b := Bind(s.(cursor := 2), 0, 1, Some(["example"]));
    assert StepValue(s, 0, 1) == Next(b);
    assert b.states[0].opts == [Fresh, OptState(Some(["example"]), true), Fresh];
    assert b == SimpleAfter(2, [Fresh, OptState(Some(["example"]), true), Fresh]);
  }

  lemma SimpleStep2()
    ensures Ready(SimpleAfter(2, [Fresh, OptState(Some(["example"]), true), Fresh]))
    ensures Step(SimpleAfter(2, [Fresh, OptState(Some(["example"]), true), Fresh]), 0)
      == Next(SimpleAfter(3, [Fresh, OptState(Some(["example"]), true), OptState(None, true)]))
  {
    SimpleReady(SimpleArgs);
    var s := SimpleAfter(2, [Fresh, OptState(Some(["example"]), true), Fresh]);
    ShortLookup(SimpleOpts, "-d", 2);
    assert "-d" != "--" && IsOptToken("-d");
    assert Step(s, 0) == StepOption(s, 0);
    assert !TakesValue(PNone | POpt);
    var b := Bind(s.(cursor := 3), 0, 2, None);
    assert StepOption(s, 0) == Next(b);
    assert b.states[0].opts == [Fresh, OptState(Some(["example"]), true), OptState(None, true)];
    assert b == SimpleAfter(3, [Fresh, OptState(Some(["example"]), true), OptState(None, true)]);
  }

  lemma SimpleParse()
    ensures Ready(SimpleSession(SimpleArgs))
    ensures SetupAndParse(SimpleSession(SimpleArgs), 0)
      == (SimpleAfter(3, [Fresh, OptState(Some(["example"]), true), OptState(None, true)]), Parsed)
  {
    var s := SimpleSession(SimpleArgs);
    var s1 := SimpleAfter(2, [Fresh, OptState(Some(["example"]), true), Fresh]);
    var s2 := SimpleAfter(3, [Fresh, OptState(Some(["example"]), true), OptState(None, true)]);
    SimpleStep1();
    SimpleStep2();
    assert ParseOpts(s2, 0) == (s2, Done);
    assert ParseOpts(s1, 0) == (s2, Done);
    assert ParseOpts(s, 0) == (s2, Done);
  }

  lemma SimpleConclude()
    ensures Ready(SimpleAfter(3, [Fresh, OptState(Some(["example"]), true), OptState(None, true)]))
    ensures Conclude(SimpleAfter(3, [Fresh, OptState(Some(["example"]), true), OptState(None, true)]))
      == (SimpleAfter(3, [Fresh, OptState(Some(["example"]), true), OptState(None, true)]), Ok)
  {
    SimpleReady(SimpleArgs);
    var s := SimpleAfter(3, [Fresh, OptState(Some(["example"]), true), OptState(None, true)]);
    assert FirstMissing(SimpleOpts, s.states[0].opts, 0) == None;
    assert !MutexGiven(s, 0);
    assert CheckMissing(s, 0) == Pass;
    assert FindOptByName(SimpleOpts, Some("help")) == Some(0);
    assert UsageIfHelp(s, 0) == None;
  }

  /** The state after the whole of "-f example -d". */
  function SimpleDone(): Session {
    SimpleAfter(3, [Fresh, OptState(Some(["example"]), true), OptState(None, true)])
  }

  /** "-f example -d" finishes without errors or help. */
  lemma SimpleParses()
    ensures var argv := ["como_simple", "-f", "example", "-d"];
      && ReadyTable(ComoMaincmd(argv, "como_simple", "Programmer", "2014", SimpleRows).cmds)
      && ComoCommand(argv, "como_simple", "Programmer", "2014", SimpleRows) == (SimpleDone(), Ok)
  {
    var argv := ["como_simple", "-f", "example", "-d"];
    SimpleStart(argv);
    assert argv[1..] == SimpleArgs;
    SimpleParse();
    SimpleConclude();
  }

  /** After it, the file has its value, debug is given and help is not. */
  lemma SimpleQueries()
    ensures Consistent(SimpleDone())
    ensures CmdOpt(SimpleDone(), 0, Some("file")) == Some(1)
    ensures CmdOpt(SimpleDone(), 0, Some("debug")) == Some(2)
    ensures ComoValue(SimpleDone(), Some("file")) == Some(["example"])
    ensures ComoGiven(SimpleDone(), Some("debug")) == Some(2)
    ensures ComoGiven(SimpleDone(), Some("help")) == None
  {
    assert "help"[0] != "file"[0] && "file"[0] != "debug"[0];
    NameLookupIsFirst(SimpleOpts, Some("file"));
    NameLookupIsFirst(SimpleOpts, Some("debug"));
    NameLookupIsFirst(SimpleOpts, Some("help"));
  }

  /** The state after "-h": only the help option is given. */
  function HelpOnly(): Session {
    SimpleSession(["-h"]).(cursor := 1, states := [CmdState(false, 1, None, [OptState(None, true), Fresh, Fresh])])
  }

  lemma HelpOnlyStep()
    ensures Ready(SimpleSession(["-h"]))
    ensures Step(SimpleSession(["-h"]), 0) == Next(HelpOnly())
  {
    SimpleReady(["-h"]);
    var s := SimpleSession(["-h"]);
    ShortLookup(SimpleOpts, "-h", 0);
    assert "-h" != "--" && IsOptToken("-h");
    assert !TakesValue(PNone | POpt | PHidden);
    assert Step(s, 0) == StepOption(s, 0);
    var b := Bind(s.(cursor := 1), 0, 0, None);
    assert StepOption(s, 0) == Next(b);
    assert b.states[0].opts == [OptState(None, true), Fresh, Fresh];
    assert b == HelpOnly();
  }

  lemma HelpOnlyParse()
    ensures Ready(SimpleSession(["-h"]))
    ensures SetupAndParse(SimpleSession(["-h"]), 0) == (HelpOnly(), Parsed)
  {
    HelpOnlyStep();
    var s := SimpleSession(["-h"]);
    var t := HelpOnly();
    assert ParseOpts(t, 0) == (t, Done);
    assert ParseOpts(s, 0) == (t, Done);
  }

  lemma HelpOnlyCheck()
    ensures Ready(HelpOnly())
    ensures CheckMissing(HelpOnly(), 0) == Fail(0, OptionMissing(1))
  {
    SimpleReady(["-h"]);
    var t := HelpOnly();
    assert !Has(PNone | POpt | PHidden, PMutex) && !Has(POne, PMutex) && !Has(PNone | POpt, PMutex);
    assert !MutexGiven(t, 0);
    assert FirstMissing(SimpleOpts, t.states[0].opts, 0) == Some(1);
  }

  /** "-h" alone: the help option is not exclusive, so the missing "file"
      is reported before any help is shown. */
  lemma SimpleHelpStillMissing()
    ensures var argv := ["como_simple", "-h"];
      && ReadyTable(ComoMaincmd(argv, "como_simple", "Programmer", "2014", SimpleRows).cmds)
      && ComoCommand(argv, "como_simple", "Programmer", "2014", SimpleRows).1 == MissingError(0, OptionMissing(1))
  {
    var argv := ["como_simple", "-h"];
    SimpleStart(argv);
    assert argv[1..] == ["-h"];
    HelpOnlyParse();
    HelpOnlyCheck();
  }

  /*
   * The terminator: "-f example -- -d" binds the file, then hands "-d"
   * to the program as an external token instead of binding the switch.
   */

  const TermArgs := ["-f", "example", "--", "-d"]

  /** The state after "-f example". */
  function TermFile(): Session {
    SimpleSession(TermArgs).(cursor := 2,
      states := [CmdState(false, 1, None, [Fresh, OptState(Some(["example"]), true), Fresh])])
  }

  /** The state after the terminator. */
  function TermDone(): Session {
    SimpleSession(TermArgs).(cursor := 3,
      states := [CmdState(false, 1, Some(["-d"]), [Fresh, OptState(Some(["example"]), true), Fresh])])
  }

  lemma TermStep()
    ensures Ready(SimpleSession(TermArgs))
    ensures Step(SimpleSession(TermArgs), 0) == Next(TermFile())
  {
    SimpleReady(TermArgs);
    var s := SimpleSession(TermArgs);
    ShortLookup(SimpleOpts, "-f", 1);
    assert "-f" != "--" && IsOptToken("-f") && !IsOptToken("example");
    assert Step(s, 0) == StepOption(s, 0);
    assert TakesValue(POne) && !Has(POne, PMany);
    assert StepOption(s, 0) == StepValue(s, 0, 1);
    var b := TakeOne(s, 0, 1);
    assert StepValue(s, 0, 1) == Next(b);
    assert b.states[0].opts == [Fresh, OptState(Some(["example"]), true), Fresh];
    assert b == TermFile();
  }

  lemma TermParse()
    ensures Ready(SimpleSession(TermArgs))
    ensures SetupAndParse(SimpleSession(TermArgs), 0) == (TermDone(), Parsed)
  {
    TermStep();
    var s1 := TermFile();
    assert s1.argv[2] == "--" && s1.argv[3..] == ["-d"];
    assert Terminate(s1) == TermDone();
    assert ParseOpts(s1, 0) == (TermDone(), Done);
    assert ParseOpts(SimpleSession(TermArgs), 0) == (TermDone(), Done);
  }

  lemma TermConclude()
    ensures Ready(TermDone())
    ensures Conclude(TermDone()) == (TermDone(), Ok)
  {
    SimpleReady(TermArgs);
    var s := TermDone();
    assert FirstMissing(SimpleOpts, s.states[0].opts, 0) == None;
    assert CheckMissing(s, 0) == Pass;
    assert FindOptByName(SimpleOpts, Some("help")) == Some(0);
    assert UsageIfHelp(s, 0) == None;
  }

  /** The run finishes normally. */
  lemma TerminatorRun()
    ensures Ready(SimpleSession(TermArgs))
    ensures Finish(SimpleSession(TermArgs)) == (TermDone(), Ok)
  {
    TermParse();
    TermConclude();
  }

  /** The tokens after "--" are the external arguments, and the "-d" among
      them was not bound. */
  lemma TerminatorQueries()
    ensures External(TermDone()) == Some(["-d"])
    ensures Consistent(TermDone()) && CmdOpt(TermDone(), 0, Some("debug")) == Some(2)
    ensures ComoGiven(TermDone(), Some("debug")) == None
  {
    assert "help"[0] != "debug"[0] && "file"[0] != "debug"[0];
    NameLookupIsFirst(SimpleOpts, Some("debug"));
  }

  /*
   * A program that turns automatic help off after specifying its root
   * and then specifies one sub-command "c": the root keeps its help
   * option, the sub-command has none.
   */

  const NoHelpConf := ConfigCreate().(autohelp := false)

  function NoHelpTable(): seq<Command> {
    [ Command("p", "p", Some("A"), Some("2020"), [HelpOpt, Opt(Subcmd, "c", None, "C.", "--c")], None, [1], NoHelpConf),
      Command("c", "p c", None, None, [], Some(0), [], NoHelpConf) ]
  }

  function NoHelpSession(args: seq<string>): Session {
    Session(args, 0, NoHelpTable(),
      [CmdState(false, 0, None, [Fresh, Fresh]), CmdState(false, 0, None, [])], 0, true)
  }

  const NoHelpRootOpts := [HelpOpt, Opt(Subcmd, "c", None, "C.", "--c")]

  /** The session once the root "p" is specified, with configuration
      `conf`. */
  function NoHelpRoot(args: seq<string>, conf: Config): Session {
    Session(args, 0,
      [Command("p", "p", Some("A"), Some("2020"), NoHelpRootOpts, None, [], conf)],
      [CmdState(false, 0, None, [Fresh, Fresh])], 0, true)
  }

  lemma NoHelpRootSpec(argv: seq<string>)
    requires |argv| >= 1
    ensures Registry.SpecCommand(Registry.Init(argv, "A", "2020"), "p", None, [SpecRow(Subcmd, "c", None, "C.")])
      == NoHelpRoot(argv[1..], ConfigCreate())
  {
    var s0 := Registry.Init(argv, "A", "2020");
    var s1 := Registry.SpecCommand(s0, "p", None, [SpecRow(Subcmd, "c", None, "C.")]);
    SugarMeaning();
    assert FromRow(Registry.HelpRow) == HelpOpt;
    assert FromRow(SpecRow(Subcmd, "c", None, "C.")) == Opt(Subcmd, "c", None, "C.", "--c");
    assert s1.cmds[0].opts == NoHelpRootOpts;
    assert s1.states[0].opts == [Fresh, Fresh];
    assert s1.argv == argv[1..];
  }

  lemma NoHelpChildSpec(args: seq<string>)
    ensures Registry.CanAddSubcmd(NoHelpRoot(args, NoHelpConf), "p")
    ensures Registry.SpecCommand(NoHelpRoot(args, NoHelpConf), "c", Some("p"), []) == NoHelpSession(args)
  {
    var s2 := NoHelpRoot(args, NoHelpConf);
    assert FindCmdByName(s2.cmds, "p") == Some(0);
    var s3 := Registry.SpecCommand(s2, "c", Some("p"), []);
    assert s3.cmds[0] == NoHelpTable()[0];
    assert s3.cmds[1] == NoHelpTable()[1];
    assert s3.cmds == NoHelpTable();
    assert s3.states == [CmdState(false, 0, None, [Fresh, Fresh]), CmdState(false, 0, None, [])];
  }

  lemma NoHelpReady()
    ensures ReadyTable(NoHelpTable())
  {
    var cmds := NoHelpTable();
    assert "p"[0] != "c"[0];
    assert FindCmdByName(cmds, "c") == Some(1);
    assert SubcmdsResolvable(cmds);
  }

  /** Registration: root, then the setter, then the sub-command. */
  lemma NoHelpStart(argv: seq<string>)
    requires |argv| >= 1
    ensures var s0 := Registry.Init(argv, "A", "2020");
      var s1 := Registry.SpecCommand(s0, "p", None, [SpecRow(Subcmd, "c", None, "C.")]);
      var s2 := Registry.Configure(s1, Registry.AutoHelp(false));
      && Registry.CanAddSubcmd(s2, "p")
      && Registry.SpecCommand(s2, "c", Some("p"), []) == NoHelpSession(argv[1..])
    ensures ReadyTable(NoHelpTable())
  {
    NoHelpRootSpec(argv);
    var s1 := NoHelpRoot(argv[1..], ConfigCreate());
    assert Registry.Configure(s1, Registry.AutoHelp(false)) == NoHelpRoot(argv[1..], NoHelpConf);
    NoHelpChildSpec(argv[1..]);
    NoHelpReady();
  }

  /** The state after "c": the sub-command is selected. */
  function NoHelpSelected(): Session {
    NoHelpSession(["c"]).(cursor := 1,
      states := [CmdState(false, 0, None, [Fresh, OptState(None, true)]), CmdState(true, 0, None, [])])
  }

  lemma NoHelpStep()
    ensures Ready(NoHelpSession(["c"]))
    ensures Step(NoHelpSession(["c"]), 0) == Enter(NoHelpSelected(), 1)
  {
    NoHelpReady();
    var s := NoHelpSession(["c"]);
    assert "c" != "--" && !IsOptToken("c") && !IsLongToken("c");
    assert "help" != "c";
    NameLookupIsFirst(s.cmds[0].opts, Some("c"));
    assert FindOpt(s.cmds[0].opts, Some("c")) == Some(1);
    assert "p"[0] != "c"[0];
    assert FindCmdByName(s.cmds, "c") == Some(1);
    assert Step(s, 0) == StepWord(s, 0);
    var e := Select(s.(cursor := 1), 0, 1, 1);
    assert StepWord(s, 0) == Enter(e, 1);
    assert e.states[0] == NoHelpSelected().states[0];
    assert e == NoHelpSelected();
  }

  lemma NoHelpParse()
    ensures Ready(NoHelpSession(["c"]))
    ensures SetupAndParse(NoHelpSession(["c"]), 0) == (NoHelpSelected(), Parsed)
  {
    NoHelpStep();
    var t := NoHelpSelected();
    assert ParseOpts(NoHelpSession(["c"]), 0) == (t, Descend(1));
    assert ParseOpts(t, 1) == (t, Done);
    assert SetupAndParse(t, 1) == (t, Parsed);
  }

  /** After "c" the corrected help search finds no request, while the
      library's own search reaches the sub-command, which has no help
      option. */
  lemma NoHelpFinding()
    ensures Ready(NoHelpSelected())
    ensures UsageIfHelp(NoHelpSelected(), 0) == None
    ensures UsageIfHelpAsWritten(NoHelpSelected(), 0) == NullDeref(1)
  {
    NoHelpReady();
    var t := NoHelpSelected();
    assert "help"[0] != "c"[0];
    NameLookupIsFirst(t.cmds[0].opts, Some("help"));
    assert FindOptByName(t.cmds[1].opts, Some("help")) == None;
    assert GivenSubcmd(t, 0) == Some(1);
    assert GivenSubcmd(t, 1) == None;
    assert !HelpGiven(t, 0) && !HelpGiven(t, 1);
  }

  /** Nothing is missing after "c". */
  lemma NoHelpCheck()
    ensures Ready(NoHelpSelected())
    ensures CheckMissing(NoHelpSelected(), 0) == Pass
  {
    NoHelpReady();
    var t := NoHelpSelected();
    assert GivenSubcmd(t, 0) == Some(1);
    assert GivenSubcmd(t, 1) == None;
    assert !Has(Subcmd, PMutex) && !Has(PNone | POpt | PHidden, PMutex);
    assert !MutexGiven(t, 0) && !MutexGiven(t, 1);
    assert FirstMissing(t.cmds[0].opts, t.states[0].opts, 0) == None;
    assert CheckMissing(t, 1) == Pass;
  }

  /** The whole program run on "c" finishes normally in the model. */
  lemma NoHelpRun()
    ensures Ready(NoHelpSession(["c"]))
    ensures Finish(NoHelpSession(["c"])) == (NoHelpSelected(), Ok)
  {
    NoHelpParse();
    NoHelpFinding();
    NoHelpCheck();
  }

  /** The library's sub-command lookup on a command without children
      reads a slot that does not exist, where the corrected lookup reports
      no such child. */
  lemma SubcmdLookupFinding()
    ensures CmdSubcmd(SimpleDone(), 0, "x") == None
    ensures CmdSubcmdAsWritten(SimpleDone(), 0, "x") == Undefined
  {
  }

  /*
   * A positional token the root cannot take, then the sub-command: the
   * root's error does not stop the scan, the sub-command still hands the
   * rest of the input to its own frame, and that frame, which has no error
   * of its own, is reported as the error origin.
   */

  /** The state after the stray "x": one error, nothing bound. */
  function StrayWord(): Session {
    NoHelpSession(["x", "c"]).(cursor := 1, errors := 1)
  }

  /** The state after "c": the sub-command is selected. */
  function StraySelected(): Session {
    NoHelpSession(["x", "c"]).(cursor := 2, errors := 1,
      states := [CmdState(false, 0, None, [Fresh, OptState(None, true)]), CmdState(true, 0, None, [])])
  }

  lemma StrayStep()
    ensures Ready(NoHelpSession(["x", "c"]))
    ensures Step(NoHelpSession(["x", "c"]), 0) == Next(StrayWord())
  {
    NoHelpReady();
    var s := NoHelpSession(["x", "c"]);
    assert "x" != "--" && !IsOptToken("x") && !IsLongToken("x");
    assert "help"[0] != "x"[0] && "c"[0] != "x"[0];
    assert FindOpt(s.cmds[0].opts, Some("x")) == None;
    assert !Has(PNone | POpt | PHidden, PDefault) && !Has(Subcmd, PDefault);
    assert FindOptByType(s.cmds[0].opts, PDefault) == None;
    assert Step(s, 0) == StepWord(s, 0);
  }

  lemma StraySubcmdStep()
    ensures Ready(StrayWord())
    ensures Step(StrayWord(), 0) == Enter(StraySelected(), 1)
  {
    NoHelpReady();
    var s := StrayWord();
    assert "c" != "--" && !IsOptToken("c") && !IsLongToken("c");
    assert "help" != "c";
    NameLookupIsFirst(s.cmds[0].opts, Some("c"));
    assert FindOpt(s.cmds[0].opts, Some("c")) == Some(1);
    assert "p"[0] != "c"[0];
    assert FindCmdByName(s.cmds, "c") == Some(1);
    assert Step(s, 0) == StepWord(s, 0);
    var e := Select(s.(cursor := 2), 0, 1, 1);
    assert StepWord(s, 0) == Enter(e, 1);
    assert e.states[0] == StraySelected().states[0];
    assert e == StraySelected();
  }

  /** "x c": a parse error whose origin is the sub-command. */
  lemma StrayWordBlamesSubcmd()
    ensures Ready(NoHelpSession(["x", "c"]))
    ensures Finish(NoHelpSession(["x", "c"])) == (StraySelected(), ParseError(1))
  {
    StrayStep();
    StraySubcmdStep();
    var t := StraySelected();
    assert ParseOpts(StrayWord(), 0) == (t, Descend(1));
    assert ParseOpts(NoHelpSession(["x", "c"]), 0) == (t, Descend(1));
    assert ParseOpts(t, 1) == (t, Failed);
    assert SetupAndParse(t, 1) == (t, ParseFailed(1));
  }

  /*
   * The unknown-option fallback: with invalid options tolerated and a
   * default option present, an unknown option is added to the default
   * option without advancing, so the scan never ends.
   */

  const FilesOpt := Opt(PNone | POne | PMany | POpt | PDefault, "<default>", Some("<default>"), "Files.", "--<default>")

  const TolerantOpts := [HelpOpt, FilesOpt]

  /** The session once the root is specified, with configuration `conf`. */
  function TolerantRoot(args: seq<string>, conf: Config): Session {
    Session(args, 0,
      [Command("p", "p", Some("A"), Some("2020"), TolerantOpts, None, [], conf)],
      [CmdState(false, 0, None, [Fresh, Fresh])], 0, true)
  }

  function TolerantSession(args: seq<string>): Session {
    TolerantRoot(args, ConfigCreate().(checkInvalid := false))
  }

  lemma TolerantSpec(argv: seq<string>)
    requires |argv| >= 1
    ensures ComoMaincmd(argv, "p", "A", "2020", [SpecRow(Default, "files", None, "Files.")])
      == TolerantRoot(argv[1..], ConfigCreate())
  {
    var s := ComoMaincmd(argv, "p", "A", "2020", [SpecRow(Default, "files", None, "Files.")]);
    SugarMeaning();
    assert FromRow(Registry.HelpRow) == HelpOpt;
    assert FromRow(SpecRow(Default, "files", None, "Files.")) == FilesOpt;
    assert s.cmds[0].opts == TolerantOpts;
    assert s.states[0].opts == [Fresh, Fresh];
  }

  lemma TolerantReady(args: seq<string>)
    ensures Ready(TolerantSession(args))
  {
    var o := TolerantOpts;
    assert forall k :: 0 <= k < |o| ==> o[k].kind != Subcmd && !UnsafeArity(o[k].kind);
  }

  /** Registration: the root with one default option, then the setter
      that tolerates invalid options. */
  lemma TolerantStart(argv: seq<string>)
    requires |argv| >= 1
    ensures var s := ComoMaincmd(argv, "p", "A", "2020", [SpecRow(Default, "files", None, "Files.")]);
      Registry.Configure(s, Registry.CheckInvalid(false)) == TolerantSession(argv[1..])
  {
    TolerantSpec(argv);
    assert Registry.Configure(TolerantRoot(argv[1..], ConfigCreate()), Registry.CheckInvalid(false))
      == TolerantSession(argv[1..]);
  }

  /** "-z" is unknown: finishing never ends. */
  lemma TolerantNeverEnds()
    ensures Ready(TolerantSession(["-z"]))
    ensures Finish(TolerantSession(["-z"])) == (TolerantSession(["-z"]), NeverEnds)
  {
    TolerantReady(["-z"]);
    var s := TolerantSession(["-z"]);
    assert "-z" != "--" && IsOptToken("-z") && !IsLongToken("-z");
    assert "-h" != "-z" && "<default>"[0] != "-z"[0];
    assert FindOpt(s.cmds[0].opts, Some("-z")) == None;
    assert !Has(PNone | POpt | PHidden, PDefault) && Has(PNone | POne | PMany | POpt | PDefault, PDefault);
    var isDefault := (o: Opt) => Has(o.kind, PDefault);
    assert s.cmds[0].opts[1..] == [FilesOpt];
    assert FirstMatch([FilesOpt], isDefault) == Some(0);
    assert FindOptByType(s.cmds[0].opts, PDefault) == Some(1);
    assert StuckAt(s, 0);
    assert Step(s, 0) == Stuck;
  }

  /*
   * The same table with the default configuration: the positional words
   * "a b c" are appended to the default option one by one, in order.
   */

  const Words := ["a", "b", "c"]

  /** The state after the first `n` words. */
  function Positional(n: nat): Session
    requires n <= |Words|
  {
    var s := TolerantRoot(Words, ConfigCreate());
    if n == 0 then s
    else s.(cursor := n, states := [CmdState(false, 1, None, [Fresh, OptState(Some(Words[..n]), true)])])
  }

  lemma PositionalReady(n: nat)
    requires n <= |Words|
    ensures Ready(Positional(n))
  {
    var o := TolerantOpts;
    assert forall k :: 0 <= k < |o| ==> o[k].kind != Subcmd && !UnsafeArity(o[k].kind);
  }

  /** The default option of the table is its second option. */
  lemma FilesIsDefault()
    ensures FindOptByType(TolerantOpts, PDefault) == Some(1)
  {
    assert !Has(PNone | POpt | PHidden, PDefault) && Has(PNone | POne | PMany | POpt | PDefault, PDefault);
    var isDefault := (o: Opt) => Has(o.kind, PDefault);
    assert TolerantOpts[1..] == [FilesOpt];
    assert FirstMatch([FilesOpt], isDefault) == Some(0);
  }

  /** Appending word `n` extends the values by it. */
  lemma PositionalAdded(n: nat)
    requires n < |Words|
    ensures Ready(Positional(n))
    ensures AddDefault(Positional(n).(cursor := n + 1), 0, 1, Words[n]) == Positional(n + 1)
  {
    PositionalReady(n);
    var s := Positional(n);
    var w := Words[n];
    var a := AddDefault(s.(cursor := n + 1), 0, 1, w);
    if n == 0 {
      assert s.states[0].opts[1].value == None;
      assert AddValue(None, w) == Words[..1];
    } else {
      assert s.states[0].opts[1].value == Some(Words[..n]);
      assert Words[..n + 1] == Words[..n] + [w];
    }
    assert a.states[0].opts[1] == OptState(Some(Words[..n + 1]), true);
    assert a.states[0].opts[0] == Fresh;
    assert a.states[0].opts == [Fresh, OptState(Some(Words[..n + 1]), true)];
  }

  /** Each word goes to the default option. */
  lemma PositionalStep(n: nat)
    requires n < |Words|
    ensures Ready(Positional(n))
    ensures Step(Positional(n), 0) == Next(Positional(n + 1))
  {
    PositionalAdded(n);
    var s := Positional(n);
    var w := Words[n];
    assert |w| == 1 && w[0] != '-' && w != "--";
    assert "help"[0] != w[0] && "<default>"[0] != w[0];
    assert FindOpt(s.cmds[0].opts, Some(w)) == None;
    FilesIsDefault();
    assert StepWord(s, 0) == Next(Positional(n + 1));
  }

  /** From any word on, the frame takes the rest of the words and ends. */
  lemma {:induction false} PositionalRest(n: nat)
    requires n <= |Words|
    ensures Ready(Positional(n))
    ensures ParseOpts(Positional(n), 0) == (Positional(3), Done)
    decreases |Words| - n
  {
    PositionalReady(n);
    if n < |Words| {
      PositionalStep(n);
      PositionalRest(n + 1);
    }
  }

  lemma PositionalConclude()
    ensures Ready(Positional(3))
    ensures Conclude(Positional(3)) == (Positional(3), Ok)
  {
    PositionalReady(3);
    var t := Positional(3);
    assert !Has(PNone | POpt | PHidden, PMutex) && !Has(PNone | POne | PMany | POpt | PDefault, PMutex);
    assert !MutexGiven(t, 0);
    assert FirstMissing(TolerantOpts, t.states[0].opts, 0) == None;
    assert CheckMissing(t, 0) == Pass;
    NameLookupIsFirst(TolerantOpts, Some("help"));
    assert UsageIfHelp(t, 0) == None;
  }

  /** "a b c" finishes normally. */
  lemma PositionalRun()
    ensures Ready(Positional(0))
    ensures Finish(Positional(0)) == (Positional(3), Ok)
  {
    PositionalRest(0);
    PositionalConclude();
  }

  /** After it, the default option holds exactly the words, in order. */
  lemma PositionalValues()
    ensures Ready(Positional(3))
    ensures ComoOpt(Positional(3), None) == Some(1)
    ensures ComoValue(Positional(3), None) == Some(["a", "b", "c"])
  {
    PositionalReady(3);
    FilesIsDefault();
    NameLookupIsFirst(TolerantOpts, None);
    assert Words[..3] == Words;
  }

  /*
   * The sub-command test program: a root with three sub-commands, each
   * with options of its own. "add -fo -f example" selects "add", whose
   * frame then binds its "force" switch and its "file" value.
   */

  const TreeRootRows := [
    SpecRow(OptSingle, "password", Some("-p"), "User password."),
    SpecRow(OptMulti, "username", Some("-u"), "Username(s)."),
    SpecRow(Silent, "terminator", Some("-"), "Terminator."),
    SpecRow(Subcmd, "add", None, "Add file to repo."),
    SpecRow(Subcmd, "rm", None, "Remove file from repo."),
    SpecRow(Subcmd, "commit", None, "Commit (pending) changes to repo.")
  ]

  const AddRows := [
    SpecRow(Switch, "force", Some("-fo"), "Force operation."),
    SpecRow(OptSingle, "username", Some("-u"), "Username."),
    SpecRow(Single, "file", Some("-f"), "File.")
  ]

  const RmRows := [
    SpecRow(Switch, "force", Some("-fo"), "Force operation."),
    SpecRow(OptSingle, "file", Some("-f"), "File.")
  ]

  const CommitRows := [
    SpecRow(Switch, "quiet", Some("-q"), "Quiet operation."),
    SpecRow(OptSingle, "username", Some("-u"), "Username."),
    SpecRow(Default, "", None, "File(s) to commit.")
  ]

  const TreeRootOpts := [
    HelpOpt,
    Opt(POne | POpt, "password", Some("-p"), "User password.", "--password"),
    Opt(POne | PMany | POpt, "username", Some("-u"), "Username(s).", "--username"),
    Opt(PNone | POpt | PHidden, "terminator", Some("-"), "Terminator.", "--terminator"),
    Opt(Subcmd, "add", None, "Add file to repo.", "--add"),
    Opt(Subcmd, "rm", None, "Remove file from repo.", "--rm"),
    Opt(Subcmd, "commit", None, "Commit (pending) changes to repo.", "--commit")
  ]

  const AddOpts := [
    HelpOpt,
    Opt(PNone | POpt, "force", Some("-fo"), "Force operation.", "--force"),
    Opt(POne | POpt, "username", Some("-u"), "Username.", "--username"),
    Opt(POne, "file", Some("-f"), "File.", "--file")
  ]

  const RmOpts := [
    HelpOpt,
    Opt(PNone | POpt, "force", Some("-fo"), "Force operation.", "--force"),
    Opt(POne | POpt, "file", Some("-f"), "File.", "--file")
  ]

  const CommitOpts := [
    HelpOpt,
    Opt(PNone | POpt, "quiet", Some("-q"), "Quiet operation.", "--quiet"),
    Opt(POne | POpt, "username", Some("-u"), "Username.", "--username"),
    Opt(PNone | POne | PMany | POpt | PDefault, "<default>", Some("<default>"), "File(s) to commit.", "--<default>")
  ]

  function TreeTable(): seq<Command> {
    [Command("como_subcmd", "como_subcmd", Some("Como Tester"), Some("2013"), TreeRootOpts, None, [1, 2, 3], ConfigCreate()),
     Command("add", "como_subcmd add", None, None, AddOpts, Some(0), [], ConfigCreate()),
     Command("rm", "como_subcmd rm", None, None, RmOpts, Some(0), [], ConfigCreate()),
     Command("commit", "como_subcmd commit", None, None, CommitOpts, Some(0), [], ConfigCreate())]
  }

  const TreeArgs := ["add", "-fo", "-f", "example"]

  /** The session on "add -fo -f example" with the root selecting "add"
      after `n` tokens and the state `add` of the sub-command. */
  function TreeAt(n: nat, root: CmdState, add: CmdState): Session {
    Session(TreeArgs, n, TreeTable(),
      [root, add, CmdState(false, 0, None, [Fresh, Fresh, Fresh]), CmdState(false, 0, None, [Fresh, Fresh, Fresh, Fresh])],
      0, true)
  }

  const TreeRootFresh := CmdState(false, 0, None, [Fresh, Fresh, Fresh, Fresh, Fresh, Fresh, Fresh])
  const TreeRootAdd := CmdState(false, 0, None, [Fresh, Fresh, Fresh, Fresh, OptState(None, true), Fresh, Fresh])

  function TreeStart(): Session {
    TreeAt(0, TreeRootFresh, AddFresh)
  }

  /** The state at the end of the input. */
  function TreeDone(): Session {
    TreeAt(4, TreeRootAdd, CmdState(true, 2, None, [Fresh, OptState(None, true), Fresh, OptState(Some(["example"]), true)]))
  }

  /** An option array with automatic help is the help option followed by
      the rows' options. */
  lemma Built(rows: seq<SpecRow>, opts: seq<Opt>)
    requires |opts| == |rows| + 1 && opts[0] == HelpOpt
    requires forall i :: 0 <= i < |rows| ==> FromRow(rows[i]) == opts[i + 1]
    ensures Registry.BuildOpts(true, rows) == opts
  {
    assert FromRow(Registry.HelpRow) == HelpOpt;
  }

  /** The option arrays registration builds from the rows. */
  lemma TreeRootBuilt()
    ensures Registry.BuildOpts(true, TreeRootRows) == TreeRootOpts
  {
    TreeRootValueRows();
    TreeRootMarkerRows();
    Built(TreeRootRows, TreeRootOpts);
  }

  lemma TreeRootValueRows()
    ensures FromRow(TreeRootRows[0]) == TreeRootOpts[1]
    ensures FromRow(TreeRootRows[1]) == TreeRootOpts[2]
    ensures FromRow(TreeRootRows[2]) == TreeRootOpts[3]
  {
  }

  lemma TreeRootMarkerRows()
    ensures FromRow(TreeRootRows[3]) == TreeRootOpts[4]
    ensures FromRow(TreeRootRows[4]) == TreeRootOpts[5]
    ensures FromRow(TreeRootRows[5]) == TreeRootOpts[6]
  {
  }

  lemma AddBuilt()
    ensures Registry.BuildOpts(true, AddRows) == AddOpts
  {
    assert FromRow(AddRows[0]) == AddOpts[1];
    assert FromRow(AddRows[1]) == AddOpts[2];
    assert FromRow(AddRows[2]) == AddOpts[3];
    Built(AddRows, AddOpts);
  }

  lemma RmBuilt()
    ensures Registry.BuildOpts(true, RmRows) == RmOpts
  {
    assert FromRow(RmRows[0]) == RmOpts[1];
    assert FromRow(RmRows[1]) == RmOpts[2];
    Built(RmRows, RmOpts);
  }

  lemma CommitBuilt()
    ensures Registry.BuildOpts(true, CommitRows) == CommitOpts
  {
    assert FromRow(CommitRows[0]) == CommitOpts[1];
    assert FromRow(CommitRows[1]) == CommitOpts[2];
    assert FromRow(CommitRows[2]) == CommitOpts[3];
    Built(CommitRows, CommitOpts);
  }

  const AddFresh := CmdState(false, 0, None, [Fresh, Fresh, Fresh, Fresh])
  const RmFresh := CmdState(false, 0, None, [Fresh, Fresh, Fresh])
  const CommitFresh := CmdState(false, 0, None, [Fresh, Fresh, Fresh, Fresh])

  /** The root command with the sub-commands `kids` registered. */
  function TreeRoot(kids: seq<CmdId>): Command {
    TreeTable()[0].(subcmds := kids)
  }

  lemma TreeRootSpec(argv: seq<string>)
    requires |argv| >= 1
    ensures ComoMaincmd(argv, "como_subcmd", "Como Tester", "2013", TreeRootRows)
      == Session(argv[1..], 0, [TreeRoot([])], [TreeRootFresh], 0, true)
  {
    var s := ComoMaincmd(argv, "como_subcmd", "Como Tester", "2013", TreeRootRows);
    TreeRootBuilt();
    assert s.cmds[0].opts == TreeRootOpts;
    assert s.states[0].opts == TreeRootFresh.opts;
  }

  lemma AddSpec(args: seq<string>)
    ensures var s := Session(args, 0, [TreeRoot([])], [TreeRootFresh], 0, true);
      && Registry.CanAddSubcmd(s, "como_subcmd")
      && Registry.SpecCommand(s, "add", Some("como_subcmd"), AddRows)
        == Session(args, 0, [TreeRoot([1]), TreeTable()[1]], [TreeRootFresh, AddFresh], 0, true)
  {
    var s := Session(args, 0, [TreeRoot([])], [TreeRootFresh], 0, true);
    assert FindCmdByName(s.cmds, "como_subcmd") == Some(0);
    AddBuilt();
    var r := Registry.SpecCommand(s, "add", Some("como_subcmd"), AddRows);
    assert [] + [1] == [1];
    assert r.cmds[0] == TreeRoot([1]);
    assert r.cmds[1] == TreeTable()[1];
    assert r.cmds == [TreeRoot([1]), TreeTable()[1]];
    assert r.states[1] == AddFresh;
  }

  lemma RmSpec(args: seq<string>)
    ensures var s := Session(args, 0, [TreeRoot([1]), TreeTable()[1]], [TreeRootFresh, AddFresh], 0, true);
      && Registry.CanAddSubcmd(s, "como_subcmd")
      && Registry.SpecCommand(s, "rm", Some("como_subcmd"), RmRows)
        == Session(args, 0, [TreeRoot([1, 2])] + TreeTable()[1..3], [TreeRootFresh, AddFresh, RmFresh], 0, true)
  {
    var s := Session(args, 0, [TreeRoot([1]), TreeTable()[1]], [TreeRootFresh, AddFresh], 0, true);
    assert FindCmdByName(s.cmds, "como_subcmd") == Some(0);
    RmBuilt();
    var r := Registry.SpecCommand(s, "rm", Some("como_subcmd"), RmRows);
    assert [1] + [2] == [1, 2];
    assert r.cmds[0] == TreeRoot([1, 2]);
    assert r.cmds[1] == TreeTable()[1];
    assert r.cmds[2] == TreeTable()[2];
    assert r.cmds == [TreeRoot([1, 2])] + TreeTable()[1..3];
    assert r.states[2] == RmFresh;
  }

  lemma CommitSpec(args: seq<string>)
    ensures var s := Session(args, 0, [TreeRoot([1, 2])] + TreeTable()[1..3], [TreeRootFresh, AddFresh, RmFresh], 0, true);
      && Registry.CanAddSubcmd(s, "como_subcmd")
      && Registry.SpecCommand(s, "commit", Some("como_subcmd"), CommitRows)
        == Session(args, 0, TreeTable(), [TreeRootFresh, AddFresh, RmFresh, CommitFresh], 0, true)
  {
    var s := Session(args, 0, [TreeRoot([1, 2])] + TreeTable()[1..3], [TreeRootFresh, AddFresh, RmFresh], 0, true);
    assert FindCmdByName(s.cmds, "como_subcmd") == Some(0);
    CommitBuilt();
    var r := Registry.SpecCommand(s, "commit", Some("como_subcmd"), CommitRows);
    assert [1, 2] + [3] == [1, 2, 3];
    assert r.cmds[0] == TreeRoot([1, 2, 3]) == TreeTable()[0];
    assert r.cmds[1..3] == TreeTable()[1..3];
    assert r.cmds[3] == TreeTable()[3];
    assert r.cmds == TreeTable();
    assert r.states[3] == CommitFresh;
  }

  /** Registration as in the test program: the root, then "add", "rm" and
      "commit" under it, gives the table above. */
  lemma TreeRegistered(argv: seq<string>)
    requires |argv| >= 1
    ensures var s1 := ComoMaincmd(argv, "como_subcmd", "Como Tester", "2013", TreeRootRows);
      && Registry.CanAddSubcmd(s1, "como_subcmd")
      && var s2 := Registry.SpecCommand(s1, "add", Some("como_subcmd"), AddRows);
      && Registry.CanAddSubcmd(s2, "como_subcmd")
      && var s3 := Registry.SpecCommand(s2, "rm", Some("como_subcmd"), RmRows);
      && Registry.CanAddSubcmd(s3, "como_subcmd")
      && Registry.SpecCommand(s3, "commit", Some("como_subcmd"), CommitRows)
        == Session(argv[1..], 0, TreeTable(), TreeStart().states, 0, true)
    ensures argv[1..] == TreeArgs ==> Session(argv[1..], 0, TreeTable(), TreeStart().states, 0, true) == TreeStart()
  {
    TreeRootSpec(argv);
    AddSpec(argv[1..]);
    RmSpec(argv[1..]);
    CommitSpec(argv[1..]);
  }

  /** No option of the table takes one value while also accepting none. */
  lemma TreeSafe()
    ensures NoUnsafeArity(TreeTable())
  {
    var cmds := TreeTable();
    assert !UnsafeArity(PNone | POpt | PHidden) && !UnsafeArity(POne | POpt) && !UnsafeArity(POne | PMany | POpt);
    assert !UnsafeArity(Subcmd) && !UnsafeArity(PNone | POpt) && !UnsafeArity(POne);
    assert !UnsafeArity(PNone | POne | PMany | POpt | PDefault);
    forall i, k | 0 <= i < |cmds| && 0 <= k < |cmds[i].opts|
      ensures !UnsafeArity(cmds[i].opts[k].kind)
    {
    }
  }

  /** Every sub-command marker names a registered command. */
  lemma TreeResolvable()
    ensures SubcmdsResolvable(TreeTable())
  {
    var cmds := TreeTable();
    assert "como_subcmd"[0] != "add"[0];
    assert FindCmdByName(cmds, "add") == Some(1);
    assert "como_subcmd"[0] != "rm"[0] && "add"[0] != "rm"[0];
    assert FindCmdByName(cmds, "rm") == Some(2);
    assert "como_subcmd"[3] != "commit"[3] && "add"[0] != "commit"[0] && "rm"[0] != "commit"[0];
    assert FindCmdByName(cmds, "commit") == Some(3);
    assert PNone | POpt | PHidden != Subcmd && POne | POpt != Subcmd && POne | PMany | POpt != Subcmd;
    assert PNone | POpt != Subcmd && POne != Subcmd && PNone | POne | PMany | POpt | PDefault != Subcmd;
    forall i, k | 0 <= i < |cmds| && 0 <= k < |cmds[i].opts| && cmds[i].opts[k].kind == Subcmd
      ensures FindCmdByName(cmds, cmds[i].opts[k].name).Some?
    {
    }
  }

  lemma TreeReady()
    ensures ReadyTable(TreeTable())
  {
    TreeSafe();
    TreeResolvable();
  }

  /** The root finds the "add" marker by name, and the table the command. */
  lemma AddLookup()
    ensures FindOpt(TreeRootOpts, Some("add")) == Some(4)
    ensures FindCmdByName(TreeTable(), "add") == Some(1)
  {
    assert !IsOptToken("add") && !IsLongToken("add");
    assert "help"[0] != "add"[0] && "password"[0] != "add"[0] && "username"[0] != "add"[0] && "terminator"[0] != "add"[0];
    NameLookupIsFirst(TreeRootOpts, Some("add"));
    assert "como_subcmd"[0] != "add"[0];
  }

  /** The state after "add". */
  function TreeSelected(): Session {
    TreeAt(1, TreeRootAdd, CmdState(true, 0, None, [Fresh, Fresh, Fresh, Fresh]))
  }

  lemma TreeSelect()
    ensures Ready(TreeStart())
    ensures Select(TreeStart().(cursor := 1), 0, 4, 1) == TreeSelected()
  {
    TreeAtReady(0, TreeRootFresh, AddFresh);
    var e := Select(TreeStart().(cursor := 1), 0, 4, 1);
    assert e.states[0] == TreeRootAdd;
    assert e.states[1] == TreeSelected().states[1];
    assert e.states[2..] == TreeStart().states[2..];
  }

  /** "add" selects the sub-command. */
  lemma TreeStep1()
    ensures Ready(TreeStart())
    ensures Step(TreeStart(), 0) == Enter(TreeSelected(), 1)
  {
    TreeSelect();
    var s := TreeStart();
    assert s.argv[0] == "add" && "add" != "--" && !IsOptToken("add");
    AddLookup();
    assert s.cmds[0].opts == TreeRootOpts;
    assert StepWord(s, 0) == Enter(TreeSelected(), 1);
  }

  lemma TreeAtReady(n: nat, root: CmdState, add: CmdState)
    requires n <= |TreeArgs| && |root.opts| == |TreeRootOpts| && |add.opts| == |AddOpts|
    ensures Ready(TreeAt(n, root, add))
  {
    TreeReady();
  }

  lemma TreeSwitchTaken()
    ensures Ready(TreeSelected()) && TreeSelected().argv[1] == "-fo"
    ensures TakeSwitch(TreeSelected(), 1, 1) == TreeForced()
  {
    var s := TreeSelected();
    TreeAtReady(1, TreeRootAdd, s.states[1]);
    var b := TakeSwitch(s, 1, 1);
    assert b.states[1] == TreeForced().states[1];
    assert b.states[0] == TreeRootAdd;
    assert b.states[2..] == TreeForced().states[2..];
  }

  /** "-fo" binds the switch of "add", not a prefix of it. */
  lemma TreeStep2()
    ensures Ready(TreeSelected())
    ensures Step(TreeSelected(), 1) == Next(TreeForced())
  {
    TreeSwitchTaken();
    var s := TreeSelected();
    ShortLookup(AddOpts, "-fo", 1);
    assert "-fo" != "--" && IsOptToken("-fo");
    assert s.cmds[1].opts == AddOpts;
    assert !TakesValue(PNone | POpt);
  }

  /** The state after "-fo". */
  function TreeForced(): Session {
    TreeAt(2, TreeRootAdd, CmdState(true, 1, None, [Fresh, OptState(None, true), Fresh, Fresh]))
  }

  lemma TreeFileTaken()
    ensures Ready(TreeForced()) && TreeForced().argv[2] == "-f" && TreeForced().argv[3] == "example"
    ensures !NoValueFollows(TreeForced())
    ensures TakeOne(TreeForced(), 1, 3) == TreeDone()
  {
    var s := TreeForced();
    TreeAtReady(2, TreeRootAdd, s.states[1]);
    assert !IsOptToken("example");
    var b := TakeOne(s, 1, 3);
    assert b.states[1] == TreeDone().states[1];
    assert b.states[0] == TreeRootAdd;
    assert b.states[2..] == TreeDone().states[2..];
  }

  /** "-f example" gives "add" its file. */
  lemma TreeStep3()
    ensures Ready(TreeForced())
    ensures Step(TreeForced(), 1) == Next(TreeDone())
  {
    TreeFileTaken();
    var s := TreeForced();
    ShortLookup(AddOpts, "-f", 3);
    assert "-f" != "--" && IsOptToken("-f");
    assert FindOpt(s.cmds[1].opts, Some("-f")) == Some(3);
    assert TakesValue(POne) && !Has(POne, PMany) && !Has(POne, PNone);
    assert !s.states[1].opts[3].given;
    assert StepValue(s, 1, 3) == Next(TreeDone());
  }

  lemma TreeParse()
    ensures Ready(TreeStart())
    ensures SetupAndParse(TreeStart(), 0) == (TreeDone(), Parsed)
  {
    TreeStep1();
    TreeStep2();
    TreeStep3();
    var s1 := TreeSelected();
    var s2 := TreeForced();
    var t := TreeDone();
    assert ParseOpts(TreeStart(), 0) == (s1, Descend(1));
    assert ParseOpts(t, 1) == (t, Done);
    assert ParseOpts(s2, 1) == (t, Done);
    assert ParseOpts(s1, 1) == (t, Done);
    assert SetupAndParse(t, 1) == (t, Parsed);
  }

  /** No required option of the root or of "add" is left out, and no
      exclusive option is given. */
  lemma TreeComplete()
    ensures FirstMissing(TreeRootOpts, TreeRootAdd.opts, 0) == None
    ensures FirstMissing(AddOpts, TreeDone().states[1].opts, 0) == None
    ensures forall k :: 0 <= k < |TreeRootOpts| ==> !Has(TreeRootOpts[k].kind, PMutex)
    ensures forall k :: 0 <= k < |AddOpts| ==> !Has(AddOpts[k].kind, PMutex)
  {
    assert !Has(PNone | POpt | PHidden, PMutex) && !Has(POne | POpt, PMutex) && !Has(POne | PMany | POpt, PMutex);
    assert !Has(Subcmd, PMutex) && !Has(PNone | POpt, PMutex) && !Has(POne, PMutex);
  }

  lemma TreeCheck()
    ensures Ready(TreeDone())
    ensures CheckMissing(TreeDone(), 0) == Pass
  {
    var t := TreeDone();
    TreeAtReady(4, TreeRootAdd, t.states[1]);
    TreeComplete();
    assert t.cmds[0].opts == TreeRootOpts && t.cmds[1].opts == AddOpts;
    assert !MutexGiven(t, 0) && !MutexGiven(t, 1);
    assert GivenSubcmd(t, 1) == None;
    assert CheckMissing(t, 1) == Pass;
    assert GivenSubcmd(t, 0) == Some(1);
  }

  lemma TreeNoHelp()
    ensures Ready(TreeDone())
    ensures UsageIfHelp(TreeDone(), 0) == None
  {
    var t := TreeDone();
    TreeAtReady(4, TreeRootAdd, t.states[1]);
    NameLookupIsFirst(TreeRootOpts, Some("help"));
    NameLookupIsFirst(AddOpts, Some("help"));
    assert !HelpGiven(t, 0) && !HelpGiven(t, 1);
    assert GivenSubcmd(t, 1) == None;
    assert GivenSubcmd(t, 0) == Some(1);
  }

  lemma TreeConclude()
    ensures Ready(TreeDone())
    ensures Conclude(TreeDone()) == (TreeDone(), Ok)
  {
    TreeCheck();
    TreeNoHelp();
  }

  /** "add -fo -f example" finishes normally. */
  lemma TreeRun()
    ensures Ready(TreeStart())
    ensures Finish(TreeStart()) == (TreeDone(), Ok)
  {
    TreeParse();
    TreeConclude();
  }

  /** After it, "add" is the selected sub-command, its switch is given
      and its file is bound. */
  lemma TreeQueries()
    ensures Ready(TreeDone())
    ensures ComoGivenSubcmd(TreeDone()) == Some(1)
    ensures CmdOpt(TreeDone(), 1, Some("force")) == Some(1) && CmdGiven(TreeDone(), 1, Some("force")) == Some(1)
    ensures CmdOpt(TreeDone(), 1, Some("file")) == Some(3) && CmdValue(TreeDone(), 1, Some("file")) == Some(["example"])
  {
    TreeAtReady(4, TreeRootAdd, TreeDone().states[1]);
    assert GivenSubcmd(TreeDone(), 0) == Some(1);
    AddNames();
  }

  /** The options of "add" by name. */
  lemma AddNames()
    ensures FindOptByName(AddOpts, Some("force")) == Some(1)
    ensures FindOptByName(AddOpts, Some("file")) == Some(3)
  {
    assert "help"[0] != "force"[0];
    NameLookupIsFirst(AddOpts, Some("force"));
    assert "help"[0] != "file"[0] && "force"[1] != "file"[1] && "username"[0] != "file"[0];
    NameLookupIsFirst(AddOpts, Some("file"));
  }
}
