/** Building the command tree: initialisation, command specification and
    the configuration setters. */
module Registry {
  import opened Maybe
  import opened OptionType
  import opened Entities

  /** The hidden help switch synthesised first in every command whose
      configuration has automatic help on. */
  const HelpRow := SpecRow(Silent, "help", Some("-h"), "Display usage info.")

  /** Most commands the global list holds (128 slots, one kept for the NULL
      terminator), and most sub-commands of one parent. */
  const MaxCommands := 127
  const MaxSubcmds := 128

  /** The option array of a command: the help option when automatic help is
      on, then one option per specification row, in row order. */
  function BuildOpts(autohelp: bool, rows: seq<SpecRow>): (opts: seq<Opt>)
    ensures |opts| == |rows| + (if autohelp then 1 else 0)
    ensures autohelp ==> opts[0] == FromRow(HelpRow)
    ensures forall i :: 0 <= i < |rows| ==> opts[i + (if autohelp then 1 else 0)] == FromRow(rows[i])
  {
    (if autohelp then [FromRow(HelpRow)] else [])
    + seq(|rows|, i requires 0 <= i < |rows| => FromRow(rows[i]))
  }

  function FreshState(n: nat): (st: CmdState)
    ensures |st.opts| == n && !st.given && st.external == None
    ensures forall k :: 0 <= k < n ==> st.opts[k] == Fresh
  {
    CmdState(false, 0, None, seq(n, _ => Fresh))
  }

  /** Start a session: drop the program name from the argument vector and
      create the (still unnamed) root command with the default
      configuration. */
  function Init(argv: seq<string>, author: string, year: string): (s: Session)
    requires |argv| >= 1
    ensures |s.argv| == |argv| - 1 && forall i :: 0 <= i < |s.argv| ==> s.argv[i] == argv[i + 1]
    ensures s.cursor == 0 && s.errors == 0 && !s.mainSet
    ensures |s.cmds| == 1 && s.cmds[0].parent == None && s.cmds[0].opts == [] && s.cmds[0].subcmds == []
    ensures s.cmds[0].author == Some(author) && s.cmds[0].year == Some(year)
    ensures s.cmds[0].conf == ConfigCreate()
    ensures ValidTable(s.cmds) && Consistent(s)
  {
    var root := Command("", "", Some(author), Some(year), [], None, [], ConfigCreate());
    Session(argv[1..], 0, [root], [FreshState(0)], 0, false)
  }

  /** What specifying a sub-command requires: the root has been specified,
      the parent exists, and neither the global command list nor the
      parent's sub-command list is full. */
  ghost predicate CanAddSubcmd(s: Session, parent: string) {
    && s.mainSet
    && FindCmdByName(s.cmds, parent).Some?
    && |s.cmds| < MaxCommands
    && |s.cmds[FindCmdByName(s.cmds, parent).value].subcmds| < MaxSubcmds
  }

  /** Specify a command. Without a parent name the root is (re)specified;
      otherwise a new command is registered under the first command with
      that name, with a copy of the parent's configuration. */
  function SpecCommand(s: Session, name: string, parent: Option<string>, rows: seq<SpecRow>): (r: Session)
    requires ValidTable(s.cmds) && Consistent(s)
    requires parent.Some? ==> CanAddSubcmd(s, parent.value)
    ensures ValidTable(r.cmds) && Consistent(r) && r.mainSet
    ensures r.argv == s.argv && r.cursor == s.cursor && r.errors == s.errors
    ensures parent.None? ==>
      && |r.cmds| == |s.cmds|
      && r.cmds[0].name == name && r.cmds[0].longname == name
      && r.cmds[0].opts == BuildOpts(s.cmds[0].conf.autohelp, rows)
      && r.cmds[0].conf == s.cmds[0].conf && r.cmds[0].subcmds == s.cmds[0].subcmds
      && r.cmds[1..] == s.cmds[1..]
    ensures parent.Some? ==>
      var p := FindCmdByName(s.cmds, parent.value).value;
      var n := |s.cmds|;
      && |r.cmds| == n + 1
      && r.cmds[n].name == name
      && r.cmds[n].longname == s.cmds[p].longname + " " + name
      && r.cmds[n].parent == Some(p)
      && r.cmds[n].conf == s.cmds[p].conf
      && r.cmds[n].opts == BuildOpts(s.cmds[p].conf.autohelp, rows)
      && r.cmds[n].subcmds == []
      && r.cmds[p].subcmds == s.cmds[p].subcmds + [n]
      && (forall i :: 0 <= i < n && i != p ==> r.cmds[i] == s.cmds[i])
      && r.cmds[p] == s.cmds[p].(subcmds := s.cmds[p].subcmds + [n])
  {
    match parent
    case None =>
      var root := s.cmds[0];
      var opts := BuildOpts(root.conf.autohelp, rows);
      var root' := root.(name := name, longname := name, opts := opts);
      s.(cmds := s.cmds[0 := root'],
         states := s.states[0 := s.states[0].(opts := seq(|opts|, _ => Fresh))],
         mainSet := true)
    case Some(pname) =>
      var p := FindCmdByName(s.cmds, pname).value;
      var n := |s.cmds|;
      var conf := ConfigDup(s.cmds[p].conf);
      var opts := BuildOpts(conf.autohelp, rows);
      var cmd := Command(name, s.cmds[p].longname + " " + name, None, None, opts, Some(p), [], conf);
      var cmds := s.cmds[p := s.cmds[p].(subcmds := s.cmds[p].subcmds + [n])] + [cmd];
      AddChildValid(s.cmds, p, cmd);
      s.(cmds := cmds, states := s.states + [FreshState(|opts|)])
  }

  /** Appending a child of `p` keeps the table well formed. */
  lemma AddChildValid(cmds: seq<Command>, p: CmdId, cmd: Command)
    requires ValidTable(cmds) && p < |cmds| && cmd.parent == Some(p) && cmd.subcmds == []
    ensures ValidTable(cmds[p := cmds[p].(subcmds := cmds[p].subcmds + [|cmds|])] + [cmd])
  {
    var n := |cmds|;
    var r := cmds[p := cmds[p].(subcmds := cmds[p].subcmds + [n])] + [cmd];
    assert forall i :: 0 <= i < n && i != p ==> r[i] == cmds[i];
    assert forall k :: 0 <= k < |r[p].subcmds| ==> r[p].subcmds[k] == (cmds[p].subcmds + [n])[k];
  }

  /** The configuration setters. */
  datatype Setting =
    | AutoHelp(b: bool)
    | Header(text: string)
    | Footer(text: string)
    | SubCheck(b: bool)
    | CheckMissing(b: bool)
    | CheckInvalid(b: bool)
    | Tab(width: int)
    | HelpExit(b: bool)

  function Apply(c: Config, setting: Setting): Config {
    match setting
    case AutoHelp(b) => c.(autohelp := b)
    case Header(t) => c.(header := Some(t))
    case Footer(t) => c.(footer := Some(t))
    case SubCheck(b) => c.(subcheck := b)
    case CheckMissing(b) => c.(checkMissing := b)
    case CheckInvalid(b) => c.(checkInvalid := b)
    case Tab(w) => c.(tab := w)
    case HelpExit(b) => c.(helpExit := b)
  }

  /** A setter writes the active command's configuration, and the active
      command is the root for the whole of registration: every other
      command, including sub-commands specified last, is left as it was. */
  function Configure(s: Session, setting: Setting): (r: Session)
    requires |s.cmds| >= 1
    ensures |r.cmds| == |s.cmds| && r.cmds[1..] == s.cmds[1..]
    ensures r.cmds[0] == s.cmds[0].(conf := Apply(s.cmds[0].conf, setting))
    ensures r.states == s.states && r.argv == s.argv && r.cursor == s.cursor && r.mainSet == s.mainSet
    ensures ValidTable(s.cmds) ==> ValidTable(r.cmds)
    ensures Consistent(s) ==> Consistent(r)
  {
    s.(cmds := s.cmds[0 := s.cmds[0].(conf := Apply(s.cmds[0].conf, setting))])
  }

  /** A sub-command's configuration is a snapshot taken when it is
      specified: setting the root's configuration afterwards does not reach
      it, and it keeps the value the parent had at creation time. */
  lemma {:induction false} ConfigIsSnapshot(s: Session, name: string, parent: string, rows: seq<SpecRow>, setting: Setting)
    requires ValidTable(s.cmds) && Consistent(s) && CanAddSubcmd(s, parent)
    ensures var t := SpecCommand(s, name, Some(parent), rows);
      var u := Configure(t, setting);
      var n := |s.cmds|;
      u.cmds[n].conf == s.cmds[FindCmdByName(s.cmds, parent).value].conf
      && u.cmds[0].conf == Apply(t.cmds[0].conf, setting)
  {
    var t := SpecCommand(s, name, Some(parent), rows);
    var u := Configure(t, setting);
    var n := |s.cmds|;
    assert u.cmds[1..][n - 1] == t.cmds[1..][n - 1];
  }

  /** The long name of a command is the chain of names from the root down,
      separated by single spaces. */
  ghost function Chain(cmds: seq<Command>, i: CmdId): string
    requires ValidTable(cmds) && i < |cmds|
    decreases i
  {
    match cmds[i].parent
    case None => cmds[i].name
    case Some(p) => Chain(cmds, p) + " " + cmds[i].name
  }

  ghost predicate LongNamesAreChains(cmds: seq<Command>)
    requires ValidTable(cmds)
  {
    forall i :: 0 <= i < |cmds| ==> cmds[i].longname == Chain(cmds, i)
  }

  /** Specifying commands keeps every long name equal to its chain of
      ancestor names. */
  lemma {:induction false} SpecKeepsLongNames(s: Session, name: string, parent: Option<string>, rows: seq<SpecRow>)
    requires ValidTable(s.cmds) && Consistent(s) && LongNamesAreChains(s.cmds)
    requires parent.Some? ==> CanAddSubcmd(s, parent.value)
    requires parent.None? ==> |s.cmds| == 1
    ensures LongNamesAreChains(SpecCommand(s, name, parent, rows).cmds)
  {
    var r := SpecCommand(s, name, parent, rows);
    if parent.Some? {
      var p := FindCmdByName(s.cmds, parent.value).value;
      forall i | 0 <= i < |r.cmds|
        ensures r.cmds[i].longname == Chain(r.cmds, i)
      {
        ChainUnchanged(s.cmds, r.cmds, i);
        if i == |s.cmds| {
          ChainUnchanged(s.cmds, r.cmds, p);
        }
      }
    }
  }

  /** Chains depend only on names and parents, which registering a new
      command leaves untouched for the commands already present. */
  lemma {:induction false} ChainUnchanged(a: seq<Command>, b: seq<Command>, i: CmdId)
    requires ValidTable(a) && ValidTable(b) && |a| <= |b| && i < |b|
    requires forall j :: 0 <= j < |a| ==> b[j].name == a[j].name && b[j].parent == a[j].parent
    ensures i < |a| ==> Chain(b, i) == Chain(a, i)
    ensures i == |a| && b[i].parent.Some? ==> Chain(b, i) == Chain(a, b[i].parent.value) + " " + b[i].name
    decreases i
  {
    if i < |a| {
      match a[i].parent
      case None =>
      case Some(p) => ChainUnchanged(a, b, p);
    } else if i == |a| && b[i].parent.Some? {
      ChainUnchanged(a, b, b[i].parent.value);
    }
  }
}
