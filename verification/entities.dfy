/** The entities of the library: specification rows, options, configuration,
    commands and the parse session that replaces the file-scope globals.

    Each command and option is split into the part fixed at registration
    (`Command`, `Opt`) and the part the parse pass changes (`CmdState`,
    `OptState`); the session keeps both as tables indexed by command id. */
module Entities {
  import opened Maybe
  import opened OptionType

  /** One row of an option specification table: type, name, short switch
      (NULL meaning the long form is the id) and documentation. */
  datatype SpecRow = SpecRow(kind: Flags, name: string, opt: Option<string>, doc: string)

  /** A registered option, with its type already in primitives. */
  datatype Opt = Opt(kind: Flags, name: string, shortopt: Option<string>, doc: string, longopt: string)

  /** What parsing records for one option: its value array (NULL until the
      first value or value list is stored) and whether it was given. */
  datatype OptState = OptState(value: Option<seq<string>>, given: bool)

  /** A command's configuration. */
  datatype Config = Config(
    autohelp: bool,
    header: Option<string>,
    footer: Option<string>,
    subcheck: bool,
    checkMissing: bool,
    checkInvalid: bool,
    tab: int,
    helpExit: bool)

  type CmdId = nat

  /** A registered command. The root has no parent; `author` and `year` are
      set on the root only. */
  datatype Command = Command(
    name: string,
    longname: string,
    author: Option<string>,
    year: Option<string>,
    opts: seq<Opt>,
    parent: Option<CmdId>,
    subcmds: seq<CmdId>,
    conf: Config)

  /** What parsing records for one command. `external` is only ever set on
      the root. */
  datatype CmdState = CmdState(given: bool, givencnt: nat, external: Option<seq<string>>, opts: seq<OptState>)

  /** The whole engine state: the argument vector without the program name,
      the cursor into it, the command table (id 0 is the root), the parse
      state of every command, the root's error counter, and whether the root
      command has been specified. */
  datatype Session = Session(
    argv: seq<string>,
    cursor: nat,
    cmds: seq<Command>,
    states: seq<CmdState>,
    errors: nat,
    mainSet: bool)

  const DefaultName := "<default>"

  /** The option created from one specification row. */
  function OptCreate(kind: Flags, name: string, opt: Option<string>, doc: string): (o: Opt)
    ensures o.kind == ToPrimitives(kind) && o.doc == doc
    ensures kind == Default ==> o.name == DefaultName && o.shortopt == Some(DefaultName)
    ensures kind != Default ==> o.name == name && o.shortopt == opt
    ensures |o.longopt| == |o.name| + 2 && o.longopt[..2] == "--" && o.longopt[2..] == o.name
  {
    var n := if kind == Default then DefaultName else name;
    var s := if kind == Default then Some(DefaultName) else opt;
    Opt(ToPrimitives(kind), n, s, doc, "--" + n)
  }

  function FromRow(row: SpecRow): Opt {
    OptCreate(row.kind, row.name, row.opt, row.doc)
  }

  /** A freshly created option has no value and is not given. */
  const Fresh := OptState(None, false)

  /** The configuration every root command starts from. */
  function ConfigCreate(): (c: Config)
    ensures c.autohelp && c.subcheck && c.checkMissing && c.checkInvalid && c.helpExit
    ensures c.header == None && c.footer == None
    ensures c.tab == 12
  {
    Config(true, None, None, true, true, true, 12, true)
  }

  /** Field-by-field copy of a configuration (strings duplicated). */
  function ConfigDup(src: Config): (c: Config)
    ensures c == src
  {
    var d := ConfigCreate();
    d.(autohelp := src.autohelp,
       header := src.header,
       footer := src.footer,
       subcheck := src.subcheck,
       checkMissing := src.checkMissing,
       checkInvalid := src.checkInvalid,
       tab := src.tab,
       helpExit := src.helpExit)
  }

  /** The identifier shown for an option: the short switch when there is
      one, the long form otherwise; a sub-command marker shows its name. */
  function OptId(o: Opt): (id: string)
    ensures o.kind == Subcmd ==> id == o.name
    ensures o.kind != Subcmd && o.shortopt.Some? ==> id == o.shortopt.value
    ensures o.kind != Subcmd && o.shortopt.None? ==> id == o.longopt
  {
    if o.kind != Subcmd then
      (if o.shortopt.Some? then o.shortopt.value else o.longopt)
    else o.name
  }

  /** A row without a short switch is identified by its long form. */
  lemma RowWithoutShortUsesLongForm(row: SpecRow)
    requires row.kind != Subcmd && row.kind != Default && row.opt == None
    ensures OptId(FromRow(row)) == "--" + row.name
  {
    var o := FromRow(row);
    PrimitivesNeverSubcmd(row.kind);
    if IsSugar(row.kind) {
      assert o.kind != Subcmd;
    }
  }

  /** Whether an option is documented without a value placeholder: a
      value-less switch, or the default option. */
  predicate HasSwitchStyleDoc(o: Opt) {
    (Has(o.kind, PNone) && !Has(o.kind, PMany)) || Has(o.kind, PDefault)
  }

  /** A token looks like an option when it starts with '-'. */
  predicate IsOptToken(t: string) {
    |t| > 0 && t[0] == '-'
  }

  /** Structural invariant of the command table built by registration: the
      root is entry 0 and has no parent; a parent precedes its children. */
  ghost predicate ValidTable(cmds: seq<Command>) {
    && |cmds| >= 1
    && cmds[0].parent == None
    && (forall i, k :: 0 <= i < |cmds| && 0 <= k < |cmds[i].subcmds| ==> i < cmds[i].subcmds[k] < |cmds|)
    && (forall i :: 0 <= i < |cmds| && cmds[i].parent.Some? ==> cmds[i].parent.value < i)
  }

  /** The parse state has one entry per command and per option. */
  ghost predicate Consistent(s: Session) {
    && |s.states| == |s.cmds|
    && (forall i :: 0 <= i < |s.cmds| ==> |s.states[i].opts| == |s.cmds[i].opts|)
  }

  /** The option type combination that takes one value but also accepts
      none, without MANY, makes the tokenizer read past the arguments; no
      sugar tag produces it. */
  predicate UnsafeArity(p: Flags) {
    Has(p, PNone) && Has(p, POne) && !Has(p, PMany)
  }

  ghost predicate NoUnsafeArity(cmds: seq<Command>) {
    forall i, k :: 0 <= i < |cmds| && 0 <= k < |cmds[i].opts| ==> !UnsafeArity(cmds[i].opts[k].kind)
  }

  /** First command of the table with the given name. */
  function FindCmdByName(cmds: seq<Command>, name: string): (r: Option<CmdId>)
    ensures r.Some? ==> r.value < |cmds| && cmds[r.value].name == name
    ensures r.Some? ==> forall j :: 0 <= j < r.value ==> cmds[j].name != name
    ensures r.None? ==> forall j :: 0 <= j < |cmds| ==> cmds[j].name != name
  {
    if |cmds| == 0 then None
    else if cmds[0].name == name then Some(0)
    else match FindCmdByName(cmds[1..], name)
      case None => None
      case Some(j) => Some(j + 1)
  }

  /** Every sub-command marker names a registered command. */
  ghost predicate SubcmdsResolvable(cmds: seq<Command>) {
    forall i, k :: 0 <= i < |cmds| && 0 <= k < |cmds[i].opts| && cmds[i].opts[k].kind == Subcmd
      ==> FindCmdByName(cmds, cmds[i].opts[k].name).Some?
  }

  /** What the parse pass needs of the command table. */
  ghost predicate ReadyTable(cmds: seq<Command>) {
    ValidTable(cmds) && SubcmdsResolvable(cmds) && NoUnsafeArity(cmds)
  }

  /** What the parse pass needs of a session. */
  ghost predicate Ready(s: Session) {
    ReadyTable(s.cmds) && Consistent(s) && s.cursor <= |s.argv|
  }
}
