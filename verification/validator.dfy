/** The post-parse check for missing required options and missing
    sub-commands, walking down the chosen sub-command path. */
module Validator {
  import opened Maybe
  import opened OptionType
  import opened Entities

  /** An option the user must give: neither a sub-command marker nor
      optional. */
  predicate Required(o: Opt) {
    o.kind != Subcmd && !Has(o.kind, POpt)
  }

  /** First required option that was not given. */
  function FirstMissing(opts: seq<Opt>, sts: seq<OptState>, i: nat): (r: Option<nat>)
    requires |sts| == |opts| && i <= |opts|
    ensures r.Some? ==> i <= r.value < |opts| && Required(opts[r.value]) && !sts[r.value].given
    ensures r.Some? ==> forall j :: i <= j < r.value ==> Required(opts[j]) ==> sts[j].given
    ensures r.None? ==> forall j :: i <= j < |opts| ==> Required(opts[j]) ==> sts[j].given
    decreases |opts| - i
  {
    if i == |opts| then None
    else if Required(opts[i]) && !sts[i].given then Some(i)
    else FirstMissing(opts, sts, i + 1)
  }

  /** A mutually exclusive option of command `id` was given. */
  predicate MutexGiven(s: Session, id: CmdId)
    requires Consistent(s) && id < |s.cmds|
  {
    exists k :: 0 <= k < |s.cmds[id].opts| && Has(s.cmds[id].opts[k].kind, PMutex) && s.states[id].opts[k].given
  }

  /** First command of `kids` marked as given. */
  function FirstGiven(states: seq<CmdState>, kids: seq<CmdId>): (r: Option<CmdId>)
    requires forall k :: 0 <= k < |kids| ==> kids[k] < |states|
    ensures r.Some? ==> r.value in kids && states[r.value].given
    ensures r.None? ==> forall k :: 0 <= k < |kids| ==> !states[kids[k]].given
  {
    if |kids| == 0 then None
    else if states[kids[0]].given then Some(kids[0])
    else FirstGiven(states, kids[1..])
  }

  /** The given sub-command of command `id`: its first child, in
      registration order, that was selected. */
  function GivenSubcmd(s: Session, id: CmdId): (r: Option<CmdId>)
    requires ValidTable(s.cmds) && Consistent(s) && id < |s.cmds|
    ensures r.Some? ==> r.value in s.cmds[id].subcmds && id < r.value < |s.cmds| && s.states[r.value].given
    ensures r.None? ==> forall k :: 0 <= k < |s.cmds[id].subcmds| ==> !s.states[s.cmds[id].subcmds[k]].given
  {
    FirstGiven(s.states, s.cmds[id].subcmds)
  }

  /** Why a command fails the check. */
  datatype Missing = OptionMissing(opt: nat) | SubcmdRequired

  datatype Check = Pass | Fail(origin: CmdId, why: Missing)

  /** Command `i` is checked (checking enabled, no exclusive option given)
      and fails for reason `why`: the first required option it lacks, or,
      when it has all of them, no sub-command selected although it has
      sub-commands and requires one. */
  ghost predicate LevelFails(s: Session, i: CmdId, why: Missing)
    requires ValidTable(s.cmds) && Consistent(s) && i < |s.cmds|
  {
    var c := s.cmds[i];
    && c.conf.checkMissing
    && !MutexGiven(s, i)
    && match why
       case OptionMissing(k) =>
         && k < |c.opts| && Required(c.opts[k]) && !s.states[i].opts[k].given
         && forall j :: 0 <= j < k ==> Required(c.opts[j]) ==> s.states[i].opts[j].given
       case SubcmdRequired =>
         && (forall j :: 0 <= j < |c.opts| ==> Required(c.opts[j]) ==> s.states[i].opts[j].given)
         && GivenSubcmd(s, i).None? && |c.subcmds| > 0 && c.conf.subcheck
  }

  /** Command `i` has every required option, and a selected sub-command
      whenever it has sub-commands and requires one. */
  ghost predicate LevelComplete(s: Session, i: CmdId)
    requires ValidTable(s.cmds) && Consistent(s) && i < |s.cmds|
  {
    var c := s.cmds[i];
    && (forall j :: 0 <= j < |c.opts| ==> Required(c.opts[j]) ==> s.states[i].opts[j].given)
    && (GivenSubcmd(s, i).None? ==> !(|c.subcmds| > 0 && c.conf.subcheck))
  }

  /** Command `i` is checked: checking is enabled and no mutually
      exclusive option of it was given. */
  ghost predicate Checked(s: Session, i: CmdId)
    requires Consistent(s) && i < |s.cmds|
  {
    s.cmds[i].conf.checkMissing && !MutexGiven(s, i)
  }

  /** The check, started at `i`, reaches command `j`: `j` is `i`, or `i` is
      checked and complete and `j` is reached from its selected
      sub-command. A disabled check, a given exclusive option, a failing
      command or a command without a selected sub-command stops the
      descent. */
  ghost predicate Reached(s: Session, i: CmdId, j: CmdId)
    requires ValidTable(s.cmds) && Consistent(s) && i < |s.cmds|
    decreases |s.cmds| - i
  {
    || i == j
    || (&& Checked(s, i) && LevelComplete(s, i) && GivenSubcmd(s, i).Some?
        && Reached(s, GivenSubcmd(s, i).value, j))
  }

  /** The check of command `id` and, while it passes, of its selected
      sub-command. Disabled checking passes without descending; a given
      mutually exclusive option passes without descending. A failure is
      blamed on the first command reached that fails. */
  function CheckMissing(s: Session, id: CmdId): (r: Check)
    requires ValidTable(s.cmds) && Consistent(s) && id < |s.cmds|
    ensures !s.cmds[id].conf.checkMissing ==> r == Pass
    ensures s.cmds[id].conf.checkMissing && MutexGiven(s, id) ==> r == Pass
    ensures var m := FirstMissing(s.cmds[id].opts, s.states[id].opts, 0);
      Checked(s, id) && m.Some? ==> r == Fail(id, OptionMissing(m.value))
    ensures r.Fail? ==> id <= r.origin < |s.cmds| && Reached(s, id, r.origin) && LevelFails(s, r.origin, r.why)
    ensures r.Pass? && Checked(s, id) ==> LevelComplete(s, id)
    decreases |s.cmds| - id
  {
    var c := s.cmds[id];
    if !c.conf.checkMissing then Pass
    else if MutexGiven(s, id) then Pass
    else match FirstMissing(c.opts, s.states[id].opts, 0)
      case Some(k) => Fail(id, OptionMissing(k))
      case None =>
        match GivenSubcmd(s, id)
        case Some(sub) => CheckMissing(s, sub)
        case None =>
          if |c.subcmds| > 0 && c.conf.subcheck then Fail(id, SubcmdRequired) else Pass
  }

  /** The converse of the failure case: a failing command that the check
      reaches is exactly the one it reports, with exactly that reason. So
      a pass means that no command the check reaches fails. */
  lemma {:induction false} ReachedFailureIsReported(s: Session, i: CmdId, j: CmdId, why: Missing)
    requires ValidTable(s.cmds) && Consistent(s) && i < |s.cmds| && j < |s.cmds|
    requires Reached(s, i, j) && LevelFails(s, j, why)
    ensures CheckMissing(s, i) == Fail(j, why)
    decreases |s.cmds| - i
  {
    if i != j {
      ReachedFailureIsReported(s, GivenSubcmd(s, i).value, j, why);
    }
  }

  /** Command `i` and every command on its selected path below it are
      complete, as far as the check reaches. */
  ghost predicate PathComplete(s: Session, i: CmdId)
    requires ValidTable(s.cmds) && Consistent(s) && i < |s.cmds|
    decreases |s.cmds| - i
  {
    && LevelComplete(s, i)
    && (GivenSubcmd(s, i).Some? ==> PathComplete(s, GivenSubcmd(s, i).value))
  }

  /** The converse of the failure cases: when every command on the
      selected path is complete the check passes. */
  lemma {:induction false} CompletePathPasses(s: Session, i: CmdId)
    requires ValidTable(s.cmds) && Consistent(s) && i < |s.cmds|
    requires PathComplete(s, i)
    ensures CheckMissing(s, i) == Pass
    decreases |s.cmds| - i
  {
    var c := s.cmds[i];
    if c.conf.checkMissing && !MutexGiven(s, i) {
      assert FirstMissing(c.opts, s.states[i].opts, 0).None?;
      if GivenSubcmd(s, i).Some? {
        CompletePathPasses(s, GivenSubcmd(s, i).value);
      }
    }
  }
}
