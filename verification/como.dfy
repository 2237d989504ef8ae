/** The public surface: finishing (parse, check, help), the option and
    command queries, and the convenience macros. */
module Como {
  import opened Maybe
  import opened OptionType
  import opened Entities
  import opened Lookup
  import Registry
  import opened Tokenizer
  import opened Validator
  import opened Usage

  /** How finishing ends. The error outcomes show the usage of the command
      at fault and exit with failure; `Help` shows the usage of `cmd` and
      exits exactly when that command's configuration says so. */
  datatype Outcome =
    | ParseError(origin: CmdId)
    | MissingError(origin: CmdId, why: Missing)
    | Help(cmd: CmdId, exits: bool)
    | Ok
    | NeverEnds

  /** The help option of command `id` exists and was given. */
  function HelpGiven(s: Session, id: CmdId): bool
    requires Consistent(s) && id < |s.cmds|
  {
    match FindOptByName(s.cmds[id].opts, Some("help"))
    case None => false
    case Some(k) => s.states[id].opts[k].given
  }

  /** The commands the user selected, from `id` down: each next one is the
      given sub-command of the previous. */
  ghost function Path(s: Session, id: CmdId): (p: seq<CmdId>)
    requires ValidTable(s.cmds) && Consistent(s) && id < |s.cmds|
    ensures |p| >= 1 && p[0] == id
    ensures forall j :: 0 <= j < |p| ==> id <= p[j] < |s.cmds|
    decreases |s.cmds| - id
  {
    match GivenSubcmd(s, id)
    case None => [id]
    case Some(c) => [id] + Path(s, c)
  }

  /** The command whose usage the help request shows: the first command,
      from `id` down the selected path, whose help option was given. A
      command without a help option counts as not asking for help. */
  function UsageIfHelp(s: Session, id: CmdId): (r: Option<CmdId>)
    requires ValidTable(s.cmds) && Consistent(s) && id < |s.cmds|
    ensures r.Some? ==> id <= r.value < |s.cmds| && HelpGiven(s, r.value)
    decreases |s.cmds| - id
  {
    if HelpGiven(s, id) then Some(id)
    else match GivenSubcmd(s, id)
      case None => None
      case Some(c) => UsageIfHelp(s, c)
  }

  /** Position of the first command of `p` whose help option was given. */
  ghost function FirstHelp(s: Session, p: seq<CmdId>): (r: Option<nat>)
    requires Consistent(s) && forall j :: 0 <= j < |p| ==> p[j] < |s.cmds|
    ensures r.Some? ==> r.value < |p| && HelpGiven(s, p[r.value])
    ensures r.Some? ==> forall j :: 0 <= j < r.value ==> !HelpGiven(s, p[j])
    ensures r.None? ==> forall j :: 0 <= j < |p| ==> !HelpGiven(s, p[j])
  {
    if |p| == 0 then None
    else if HelpGiven(s, p[0]) then Some(0)
    else match FirstHelp(s, p[1..])
      case None => None
      case Some(k) => Some(k + 1)
  }

  /** The help request is found exactly at the first command of the
      selected path whose help option was given, and is absent exactly when
      no command on the path has one given. */
  lemma {:induction false} HelpIsFirstOnPath(s: Session, id: CmdId)
    requires ValidTable(s.cmds) && Consistent(s) && id < |s.cmds|
    ensures var p := Path(s, id);
      UsageIfHelp(s, id) == match FirstHelp(s, p) case None => None case Some(k) => Some(p[k])
    decreases |s.cmds| - id
  {
    var p := Path(s, id);
    if !HelpGiven(s, id) {
      match GivenSubcmd(s, id)
      case None =>
        assert p == [id];
      case Some(c) =>
        HelpIsFirstOnPath(s, c);
        assert p[1..] == Path(s, c);
    }
  }

  /** What the library's own help search does at one command. */
  datatype HelpProbe = ShowUsage(cmd: CmdId) | NoHelp | NullDeref(cmd: CmdId)

  /** The help search as written: it asks for the "help" option's given
      status without checking that the option exists, so a command on the
      path with automatic help turned off dereferences a missing option. */
  function UsageIfHelpAsWritten(s: Session, id: CmdId): (r: HelpProbe)
    requires ValidTable(s.cmds) && Consistent(s) && id < |s.cmds|
    ensures r.NullDeref? ==> id <= r.cmd < |s.cmds| && FindOptByName(s.cmds[r.cmd].opts, Some("help")).None?
    ensures r.ShowUsage? ==> UsageIfHelp(s, id) == Some(r.cmd)
    ensures r.NoHelp? ==> UsageIfHelp(s, id) == None
    decreases |s.cmds| - id
  {
    match FindOptByName(s.cmds[id].opts, Some("help"))
    case None => NullDeref(id)
    case Some(k) =>
      if s.states[id].opts[k].given then ShowUsage(id)
      else match GivenSubcmd(s, id)
        case None => NoHelp
        case Some(c) => UsageIfHelpAsWritten(s, c)
  }

  /** Every command on the selected path from `id` has a help option. */
  ghost predicate HelpOnPath(s: Session, id: CmdId)
    requires ValidTable(s.cmds) && Consistent(s) && id < |s.cmds|
  {
    forall j :: 0 <= j < |Path(s, id)| ==> FindOptByName(s.cmds[Path(s, id)[j]].opts, Some("help")).Some?
  }

  /** Where every selected command has its help option the library's
      search and the corrected one agree. */
  lemma {:induction false} HelpSearchAgrees(s: Session, id: CmdId)
    requires ValidTable(s.cmds) && Consistent(s) && id < |s.cmds|
    requires HelpOnPath(s, id)
    ensures !UsageIfHelpAsWritten(s, id).NullDeref?
    decreases |s.cmds| - id
  {
    var p := Path(s, id);
    assert p[0] == id;
    if !HelpGiven(s, id) {
      match GivenSubcmd(s, id)
      case None =>
      case Some(c) =>
        var q := Path(s, c);
        assert p == [id] + q;
        assert forall j :: 0 <= j < |q| ==> q[j] == p[j + 1];
        HelpSearchAgrees(s, c);
    }
  }

  /** Finish: parse from the root, then check for missing options, then
      look for a help request. */
  function Finish(s: Session): (r: (Session, Outcome))
    requires Ready(s) && s.mainSet
    ensures Ready(r.0) && r.0.cmds == s.cmds && r.0.argv == s.argv
    ensures r.1.ParseError? ==> r.1.origin < |s.cmds| && r.0.errors > 0
    ensures r.1.MissingError? ==>
      && Ready(r.0) && r.0.errors > 0
      && r.1.origin < |s.cmds| && Reached(r.0, 0, r.1.origin) && LevelFails(r.0, r.1.origin, r.1.why)
      && CheckMissing(r.0, 0) == Fail(r.1.origin, r.1.why)
    // A help request is honoured only once parsing and the missing check
    // have passed.
    ensures r.1.Help? ==>
      && Ready(r.0) && r.0.errors == 0 && CheckMissing(r.0, 0) == Pass
      && r.1.cmd < |s.cmds| && HelpGiven(r.0, r.1.cmd) && r.1.exits == s.cmds[r.1.cmd].conf.helpExit
      && UsageIfHelp(r.0, 0) == Some(r.1.cmd)
    ensures r.1.Ok? ==> Ready(r.0) && r.0.errors == 0 && CheckMissing(r.0, 0) == Pass && UsageIfHelp(r.0, 0) == None
  {
    var (t, res) := SetupAndParse(s, 0);
    match res
    case Diverges => (t, NeverEnds)
    case ParseFailed(o) => (t, ParseError(o))
    case Parsed => Conclude(t)
  }

  /** A help request from Finish shows the first command on the selected
      path whose help option was given. */
  lemma FinishShowsFirstHelp(s: Session)
    requires Ready(s) && s.mainSet
    ensures var (t, o) := Finish(s);
      o.Help? ==> var p := Path(t, 0);
        FirstHelp(t, p).Some? && p[FirstHelp(t, p).value] == o.cmd
  {
    var (t, o) := Finish(s);
    if o.Help? {
      HelpIsFirstOnPath(t, 0);
    }
  }

  /** After a clean parse: the missing check, then the help request. */
  function Conclude(t: Session): (r: (Session, Outcome))
    requires Ready(t) && t.errors == 0
    ensures r.0.cmds == t.cmds && r.0.argv == t.argv && Ready(r.0)
    ensures r.1.MissingError? || r.1.Help? || r.1.Ok?
    ensures r.1.MissingError? ==>
      && r.0 == RaiseError(t) && CheckMissing(t, 0) == Fail(r.1.origin, r.1.why)
      && r.1.origin < |t.cmds| && Reached(r.0, 0, r.1.origin) && LevelFails(r.0, r.1.origin, r.1.why)
      && CheckMissing(r.0, 0) == Fail(r.1.origin, r.1.why)
    ensures !r.1.MissingError? ==> r.0 == t && CheckMissing(t, 0) == Pass
    ensures r.1.Help? ==> UsageIfHelp(t, 0) == Some(r.1.cmd) && r.1.exits == t.cmds[r.1.cmd].conf.helpExit
    ensures r.1.Ok? ==> UsageIfHelp(t, 0) == None
  {
    match CheckMissing(t, 0)
    case Fail(o, why) =>
      LevelFailsKeepsErrors(t, RaiseError(t), 0, o, why);
      ReachedFailureIsReported(RaiseError(t), 0, o, why);
      (RaiseError(t), MissingError(o, why))
    case Pass =>
      match UsageIfHelp(t, 0)
      case Some(c) => (t, Help(c, t.cmds[c].conf.helpExit))
      case None => (t, Ok)
  }

  /** The failure facts do not depend on the error counter. */
  lemma LevelFailsKeepsErrors(t: Session, u: Session, i: CmdId, o: CmdId, why: Missing)
    requires ValidTable(t.cmds) && Consistent(t) && i < |t.cmds| && o < |t.cmds|
    requires u == t.(errors := u.errors)
    requires Reached(t, i, o) && LevelFails(t, o, why)
    ensures Reached(u, i, o) && LevelFails(u, o, why)
    decreases |t.cmds| - i
  {
    assert GivenSubcmd(u, i) == GivenSubcmd(t, i);
    assert MutexGiven(u, i) == MutexGiven(t, i);
    if i != o {
      LevelFailsKeepsErrors(t, u, GivenSubcmd(t, i).value, o, why);
    }
    assert GivenSubcmd(u, o) == GivenSubcmd(t, o);
    assert MutexGiven(u, o) == MutexGiven(t, o);
  }

  /** The command whose usage an outcome shows: the one at fault, or the
      one whose help was asked for. */
  function Subject(o: Outcome): (c: Option<CmdId>)
    ensures c.Some? <==> o.ParseError? || o.MissingError? || o.Help?
  {
    match o
    case ParseError(c) => Some(c)
    case MissingError(c, _) => Some(c)
    case Help(c, _) => Some(c)
    case Ok => None
    case NeverEnds => None
  }

  /** The usage text finishing prints, if any, written out verbatim. */
  function Printed(r: (Session, Outcome)): (text: Option<string>)
    requires Subject(r.1).Some? ==> ValidTable(r.0.cmds) && Subject(r.1).value < |r.0.cmds|
    // Every failure and every help request prints; a success and a loop
    // that never ends print nothing.
    ensures text.Some? <==> r.1.ParseError? || r.1.MissingError? || r.1.Help?
    ensures r.1.ParseError? || r.1.MissingError? ==> text == Some(CmdUsage(r.0.cmds[r.1.origin]))
    ensures r.1.Help? ==> text == Some(CmdUsage(r.0.cmds[r.1.cmd]))
    // The text is framed by that command's header and footer.
    ensures text.Some? ==> var c := r.0.cmds[Subject(r.1).value];
      && (c.conf.header.Some? ==> c.conf.header.value <= text.value)
      && (c.conf.footer.Some? ==> EndsWith(text.value, c.conf.footer.value))
  {
    match Subject(r.1)
    case None => None
    case Some(c) => Some(CmdUsage(r.0.cmds[c]))
  }

  /** What printf writes when a string is passed as its format with no
      further arguments: "%%" writes one '%', and any other conversion
      reads an argument that was never passed, which the C standard leaves
      undefined (no result). */
  function PrintfNoArgs(fmt: string): (r: Option<string>)
    ensures r.Some? ==> |r.value| <= |fmt|
    ensures r.Some? && '%' in fmt ==> |r.value| < |fmt|
    // The text comes out as it is exactly when it holds no '%'.
    ensures r == Some(fmt) <==> '%' !in fmt
    decreases |fmt|
  {
    if |fmt| == 0 then Some("")
    else
      assert fmt == [fmt[0]] + fmt[1..];
      if fmt[0] != '%' then
        match PrintfNoArgs(fmt[1..])
        case None => None
        case Some(rest) => Some([fmt[0]] + rest)
      else if |fmt| >= 2 && fmt[1] == '%' then
        match PrintfNoArgs(fmt[2..])
        case None => None
        case Some(rest) => Some("%" + rest)
      else None
  }

  /** The printing as written: the usage text is handed to printf as the
      format string. The inner value is what printf writes, none where
      the behaviour is undefined. */
  function PrintedAsWritten(r: (Session, Outcome)): (out: Option<Option<string>>)
    requires Subject(r.1).Some? ==> ValidTable(r.0.cmds) && Subject(r.1).value < |r.0.cmds|
    ensures out.Some? <==> Printed(r).Some?
    ensures out.Some? ==> (out.value == Printed(r) <==> '%' !in Printed(r).value)
  {
    match Printed(r)
    case None => None
    case Some(text) => Some(PrintfNoArgs(text))
  }

  /** A header with a '%' in it: what the library prints is not the usage
      text, for every outcome that prints. */
  lemma PercentInHeaderFinding(r: (Session, Outcome))
    requires Subject(r.1).Some? && ValidTable(r.0.cmds) && Subject(r.1).value < |r.0.cmds|
    requires var h := r.0.cmds[Subject(r.1).value].conf.header; h.Some? && '%' in h.value
    ensures PrintedAsWritten(r).value != Printed(r)
  {
    var h := r.0.cmds[Subject(r.1).value].conf.header.value;
    var text := Printed(r).value;
    var i :| 0 <= i < |h| && h[i] == '%';
    assert text[i] == h[i];
  }

  /** The synthesised help option is optional and hidden but not mutually
      exclusive: giving it does not excuse missing required options. */
  lemma HelpIsNotExclusive()
    ensures var h := FromRow(Registry.HelpRow);
      !Has(h.kind, PMutex) && Has(h.kind, POpt) && Has(h.kind, PHidden) && !Required(h)
  {
    SugarMeaning();
  }

  /*
   * Queries. The current command is the root for the whole lifetime of
   * the library, so the plain queries ask the root.
   */

  /** An option of command `id` by name (no name: the default option). */
  function CmdOpt(s: Session, id: CmdId, name: Option<string>): (r: Option<nat>)
    requires id < |s.cmds|
    ensures r.Some? ==> r.value < |s.cmds[id].opts|
    ensures name.Some? && r.Some? ==> s.cmds[id].opts[r.value].name == name.value
    ensures name.Some? && r.None? ==> forall j :: 0 <= j < |s.cmds[id].opts| ==> s.cmds[id].opts[j].name != name.value
    ensures name.None? && r.Some? ==> Has(s.cmds[id].opts[r.value].kind, PDefault)
  {
    FindOptByName(s.cmds[id].opts, name)
  }

  /** The value array of an option that exists (the library dereferences
      the lookup result). */
  function CmdValue(s: Session, id: CmdId, name: Option<string>): (r: Option<seq<string>>)
    requires Consistent(s) && id < |s.cmds| && CmdOpt(s, id, name).Some?
    ensures forall k: nat :: FirstAnswering(s.cmds[id].opts, name, k) ==> r == s.states[id].opts[k].value
  {
    NameLookupIsFirst(s.cmds[id].opts, name);
    s.states[id].opts[FindOptByName(s.cmds[id].opts, name).value].value
  }

  /** The option if it exists and was given. */
  function CmdGiven(s: Session, id: CmdId, name: Option<string>): (r: Option<nat>)
    requires Consistent(s) && id < |s.cmds| && CmdOpt(s, id, name).Some?
    ensures r.Some? <==> s.states[id].opts[CmdOpt(s, id, name).value].given
    ensures r.Some? ==> r == CmdOpt(s, id, name)
  {
    var k := FindOptByName(s.cmds[id].opts, name).value;
    if s.states[id].opts[k].given then Some(k) else None
  }

  function ComoOpt(s: Session, name: Option<string>): (r: Option<nat>)
    requires |s.cmds| >= 1
    ensures r == CmdOpt(s, 0, name)
  {
    FindOptByName(s.cmds[0].opts, name)
  }

  function ComoValue(s: Session, name: Option<string>): (r: Option<seq<string>>)
    requires Consistent(s) && |s.cmds| >= 1 && CmdOpt(s, 0, name).Some?
    ensures r == CmdValue(s, 0, name)
    ensures forall k: nat :: FirstAnswering(s.cmds[0].opts, name, k) ==> r == s.states[0].opts[k].value
  {
    NameLookupIsFirst(s.cmds[0].opts, name);
    s.states[0].opts[FindOptByName(s.cmds[0].opts, name).value].value
  }

  function ComoGiven(s: Session, name: Option<string>): (r: Option<nat>)
    requires Consistent(s) && |s.cmds| >= 1 && CmdOpt(s, 0, name).Some?
    ensures r == CmdGiven(s, 0, name)
  {
    var k := FindOptByName(s.cmds[0].opts, name).value;
    if s.states[0].opts[k].given then Some(k) else None
  }

  /** The given sub-command of the root. */
  function ComoGivenSubcmd(s: Session): (r: Option<CmdId>)
    requires ValidTable(s.cmds) && Consistent(s)
    ensures r.Some? ==> r.value in s.cmds[0].subcmds && s.states[r.value].given
    ensures r.None? ==> forall k :: 0 <= k < |s.cmds[0].subcmds| ==> !s.states[s.cmds[0].subcmds[k]].given
  {
    GivenSubcmd(s, 0)
  }

  /** The tokens after the terminator, when one was consumed. */
  function External(s: Session): Option<seq<string>>
    requires |s.states| >= 1
  {
    s.states[0].external
  }

  /** After finishing, the external tokens are the ones after the first
      terminator when the parse reached it, and a finish that succeeds or
      shows help always reached it. */
  lemma ExternalAfterFirstTerminator(s: Session, j: nat)
    requires Ready(s) && s.mainSet
    requires s.cursor <= j < |s.argv| && s.argv[j] == "--" && NoTerminator(s.argv, s.cursor, j)
    ensures var (t, o) := Finish(s);
      && (External(t) == s.states[0].external || External(t) == Some(s.argv[j + 1..]))
      && (o.Ok? || o.Help? ==> External(t) == Some(s.argv[j + 1..]))
  {
    var (t, res) := SetupAndParse(s, 0);
    if t.states[0].external != s.states[0].external || res.Parsed? {
      assert s.argv[t.cursor - 1] == "--";
      assert t.cursor - 1 == j;
    }
  }

  /** Without a terminator the external tokens stay as they were (none,
      for a session just specified). */
  lemma NoTerminatorKeepsExternal(s: Session)
    requires Ready(s) && s.mainSet && NoTerminator(s.argv, s.cursor, |s.argv|)
    ensures External(Finish(s).0) == s.states[0].external
  {
    var (t, res) := SetupAndParse(s, 0);
    assert t.states[0].external == s.states[0].external;
  }

  /** A sub-command of `id` by name: the first of its children, in
      registration order, with that name. */
  function CmdSubcmd(s: Session, id: CmdId, name: string): (r: Option<CmdId>)
    requires ValidTable(s.cmds) && id < |s.cmds|
    ensures r.Some? ==> r.value in s.cmds[id].subcmds && s.cmds[r.value].name == name
    ensures r.None? ==> forall k :: 0 <= k < |s.cmds[id].subcmds| ==> s.cmds[s.cmds[id].subcmds[k]].name != name
  {
    ChildNamed(s.cmds, s.cmds[id].subcmds, name)
  }

  function ChildNamed(cmds: seq<Command>, kids: seq<CmdId>, name: string): (r: Option<CmdId>)
    requires forall k :: 0 <= k < |kids| ==> kids[k] < |cmds|
    ensures r.Some? ==> r.value in kids && cmds[r.value].name == name
    ensures r.Some? ==> exists k :: 0 <= k < |kids| && kids[k] == r.value && forall j :: 0 <= j < k ==> cmds[kids[j]].name != name
    ensures r.None? ==> forall k :: 0 <= k < |kids| ==> cmds[kids[k]].name != name
  {
    if |kids| == 0 then None
    else if cmds[kids[0]].name == name then Some(kids[0])
    else
      var r := ChildNamed(cmds, kids[1..], name);
      if r.Some? then
        ghost var k :| 0 <= k < |kids[1..]| && kids[1..][k] == r.value && forall j :: 0 <= j < k ==> cmds[kids[1..][j]].name != name;
        assert kids[k + 1] == r.value;
        r
      else r
  }

  /** What the library's sub-command lookup reads at one slot. */
  datatype SlotRead = Found(cmd: CmdId) | NotFound | Undefined

  /** The sub-command lookup as written: it bounds its scan by the number
      of registered commands instead of the number of children, so once the
      filled slots are passed it reads a slot past them: the array is
      missing when the command has no children, and the slots past the
      filled ones are zero otherwise, so either way a NULL is dereferenced. */
  function CmdSubcmdAsWritten(s: Session, id: CmdId, name: string): (r: SlotRead)
    requires ValidTable(s.cmds) && id < |s.cmds|
    ensures r.Found? ==> r.cmd < |s.cmds| && s.cmds[r.cmd].name == name
  {
    Scan(s.cmds, s.cmds[id].subcmds, name, 0)
  }

  function Scan(cmds: seq<Command>, kids: seq<CmdId>, name: string, i: nat): (r: SlotRead)
    requires forall k :: 0 <= k < |kids| ==> kids[k] < |cmds|
    ensures r.Found? ==> r.cmd < |cmds| && cmds[r.cmd].name == name
    ensures r.Undefined? ==> |kids| < |cmds|
    decreases |cmds| - i
  {
    if i >= |cmds| then NotFound
    else if i >= |kids| then Undefined
    else if cmds[kids[i]].name == name then Found(kids[i])
    else Scan(cmds, kids, name, i + 1)
  }

  /** Where the corrected lookup finds a child the library does too; where
      it finds none the library reads past the filled slots. */
  lemma {:induction false} SubcmdLookupAgrees(s: Session, id: CmdId, name: string)
    requires ValidTable(s.cmds) && id < |s.cmds|
    requires |s.cmds[id].subcmds| < |s.cmds|
    ensures CmdSubcmd(s, id, name).Some? ==> CmdSubcmdAsWritten(s, id, name) == Found(CmdSubcmd(s, id, name).value)
    ensures CmdSubcmd(s, id, name).None? <==> CmdSubcmdAsWritten(s, id, name) == Undefined
  {
    ScanAgrees(s.cmds, s.cmds[id].subcmds, name, 0);
  }

  lemma {:induction false} ScanAgrees(cmds: seq<Command>, kids: seq<CmdId>, name: string, i: nat)
    requires forall k :: 0 <= k < |kids| ==> kids[k] < |cmds|
    requires |kids| < |cmds| && i <= |kids|
    ensures ChildNamed(cmds, kids[i..], name).Some? ==> Scan(cmds, kids, name, i) == Found(ChildNamed(cmds, kids[i..], name).value)
    ensures ChildNamed(cmds, kids[i..], name).None? <==> Scan(cmds, kids, name, i) == Undefined
    decreases |kids| - i
  {
    if i < |kids| && cmds[kids[i]].name != name {
      ScanAgrees(cmds, kids, name, i + 1);
      assert kids[i..][1..] == kids[i + 1..];
    }
  }

  /** A program with only a root command. */
  function ComoMaincmd(argv: seq<string>, prog: string, author: string, year: string, rows: seq<SpecRow>): (s: Session)
    requires |argv| >= 1
    ensures ValidTable(s.cmds) && Consistent(s) && s.mainSet
    ensures s.argv == argv[1..] && s.cursor == 0 && s.errors == 0
    ensures |s.cmds| == 1 && s.cmds[0].name == prog && s.cmds[0].conf == ConfigCreate()
    ensures s.cmds[0].opts == Registry.BuildOpts(true, rows)
  {
    var s0 := Registry.Init(argv, author, year);
    assert s0.argv == argv[1..];
    Registry.SpecCommand(s0, prog, None, rows)
  }

  /** A program with only a root command, finished at once. */
  function ComoCommand(argv: seq<string>, prog: string, author: string, year: string, rows: seq<SpecRow>): (r: (Session, Outcome))
    requires |argv| >= 1
    requires ReadyTable(ComoMaincmd(argv, prog, author, year, rows).cmds)
    ensures Ready(r.0) && r.0.cmds == ComoMaincmd(argv, prog, author, year, rows).cmds
    ensures r.0.argv == argv[1..]
    ensures r.1.Help? ==> r.1.cmd == 0 && r.1.exits
    ensures r.1.MissingError? ==> r.1.origin == 0
    ensures r.1.ParseError? ==> r.1.origin == 0
  {
    var s := ComoMaincmd(argv, prog, author, year, rows);
    Finish(s)
  }
}
