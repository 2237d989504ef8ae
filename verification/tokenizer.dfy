/** The argument-consuming state machine: one frame scans the argument
    vector against one command's options until the input ends, a
    terminator or an error stops it, or a sub-command token hands the rest
    of the input to a child frame. */
module Tokenizer {
  import opened Maybe
  import opened OptionType
  import opened Entities
  import opened Lookup

  /** The values a multi-valued option takes: the tokens from `from` up to
      the next option-looking token (a "--" included) or the end. */
  function OptionValues(argv: seq<string>, from: nat): (vals: seq<string>)
    requires from <= |argv|
    ensures from + |vals| <= |argv| && vals == argv[from..from + |vals|]
    ensures forall i :: 0 <= i < |vals| ==> !IsOptToken(vals[i])
    ensures from + |vals| == |argv| || IsOptToken(argv[from + |vals|])
    decreases |argv| - from
  {
    if from == |argv| || IsOptToken(argv[from]) then []
    else [argv[from]] + OptionValues(argv, from + 1)
  }

  /** The collection as the library performs it: count the tokens up to the
      next option, rewind, then copy that many. */
  method GetOptionValues(argv: seq<string>, from: nat) returns (vals: seq<string>, next: nat)
    requires from <= |argv|
    ensures vals == OptionValues(argv, from)
    ensures next == from + |vals|
  {
    var idx := from;
    var cnt := 0;
    while idx < |argv| && !IsOptToken(argv[idx])
      invariant from <= idx <= |argv| && cnt == idx - from
      invariant forall p :: from <= p < idx ==> !IsOptToken(argv[p])
      decreases |argv| - idx
    {
      idx := idx + 1;
      cnt := cnt + 1;
    }
    assert argv[from..idx] == OptionValues(argv, from) by {
      MaximalRun(argv, from, idx);
    }
    idx := from;
    vals := [];
    var i := 0;
    while i < cnt
      invariant 0 <= i <= cnt && idx == from + i
      invariant vals == argv[from..idx]
      decreases cnt - i
    {
      vals := vals + [argv[idx]];
      idx := idx + 1;
      i := i + 1;
    }
    next := idx;
  }

  /** A run of non-option tokens ending at an option or the end is exactly
      what `OptionValues` collects. */
  lemma {:induction false} MaximalRun(argv: seq<string>, from: nat, to: nat)
    requires from <= to <= |argv|
    requires forall p :: from <= p < to ==> !IsOptToken(argv[p])
    requires to == |argv| || IsOptToken(argv[to])
    ensures OptionValues(argv, from) == argv[from..to]
    decreases |argv| - from
  {
    if from < to {
      MaximalRun(argv, from + 1, to);
      assert argv[from..to] == [argv[from]] + argv[from + 1..to];
    }
  }

  /** Append one value to a (possibly NULL) value array. */
  function AddValue(storage: Option<seq<string>>, item: string): (r: seq<string>)
    ensures storage.None? ==> r == [item]
    ensures storage.Some? ==> |r| == |storage.value| + 1 && r[..|storage.value|] == storage.value
    ensures r[|r| - 1] == item
  {
    match storage
    case None => [item]
    case Some(items) => items + [item]
  }

  /** Record one error on the root's counter. */
  function RaiseError(s: Session): Session {
    s.(errors := s.errors + 1)
  }

  /** Replace the parse state of option `k` of command `f`. */
  function SetOpt(s: Session, f: CmdId, k: nat, st: OptState): (r: Session)
    requires Consistent(s) && f < |s.cmds| && k < |s.cmds[f].opts|
    ensures Consistent(r) && r.cmds == s.cmds && r.argv == s.argv && r.cursor == s.cursor
    ensures r.errors == s.errors && r.mainSet == s.mainSet
    ensures r.states[f].opts[k] == st
  {
    s.(states := s.states[f := s.states[f].(opts := s.states[f].opts[k := st])])
  }

  /** Mark option `k` of command `f` as given with the value array `value`,
      counting it on the command. */
  function Bind(s: Session, f: CmdId, k: nat, value: Option<seq<string>>): (r: Session)
    requires Consistent(s) && f < |s.cmds| && k < |s.cmds[f].opts|
    ensures Consistent(r) && r.cmds == s.cmds && r.argv == s.argv && r.cursor == s.cursor
    ensures r.errors == s.errors && r.mainSet == s.mainSet
    ensures r.states[f].opts[k] == OptState(value, true)
    ensures r.states[f].givencnt == s.states[f].givencnt + 1
    ensures r.states[0].external == s.states[0].external
  {
    var t := SetOpt(s, f, k, OptState(value, true));
    t.(states := t.states[f := t.states[f].(givencnt := t.states[f].givencnt + 1)])
  }

  /** Append a positional token to the default option `d` of command `f`;
      the command counts the default option the first time it gets a value
      array. */
  function AddDefault(s: Session, f: CmdId, d: nat, tok: string): (r: Session)
    requires Consistent(s) && f < |s.cmds| && d < |s.cmds[f].opts|
    ensures Consistent(r) && r.cmds == s.cmds && r.argv == s.argv && r.cursor == s.cursor
    ensures r.errors == s.errors && r.mainSet == s.mainSet
    ensures r.states[f].opts[d] == OptState(Some(AddValue(s.states[f].opts[d].value, tok)), true)
    ensures r.states[0].external == s.states[0].external
  {
    var st := s.states[f].opts[d];
    var cnt := if st.value.None? then s.states[f].givencnt + 1 else s.states[f].givencnt;
    var t := SetOpt(s, f, d, OptState(Some(AddValue(st.value, tok)), true));
    t.(states := t.states[f := t.states[f].(givencnt := cnt)])
  }

  /** Mark the sub-command marker `k` of command `f` and the command `c`
      as given. */
  function Select(s: Session, f: CmdId, k: nat, c: CmdId): (r: Session)
    requires Consistent(s) && f < |s.cmds| && k < |s.cmds[f].opts| && c < |s.cmds|
    ensures Consistent(r) && r.cmds == s.cmds && r.argv == s.argv && r.cursor == s.cursor
    ensures r.errors == s.errors && r.mainSet == s.mainSet
    ensures r.states[f].opts[k].given && r.states[c].given
    ensures r.states[0].external == s.states[0].external
  {
    var t := SetOpt(s, f, k, s.states[f].opts[k].(given := true));
    t.(states := t.states[c := t.states[c].(given := true)])
  }

  /** No literal "--" among the tokens at positions `a` to `b - 1`. */
  ghost predicate NoTerminator(argv: seq<string>, a: nat, b: nat) {
    forall p :: a <= p < b && p < |argv| ==> argv[p] != "--"
  }

  /** How one iteration of the scanning loop ends: continue scanning, leave
      the loop, return "descend into `child`", or repeat forever. */
  datatype StepEnd = Next(s: Session) | Break(s: Session) | Enter(s: Session, child: CmdId) | Stuck

  /** The token under the cursor is an unknown option, unknown options are
      tolerated and a default option exists: the loop body then adds the
      token to the default option without advancing, so the same iteration
      repeats forever. */
  predicate StuckAt(s: Session, f: CmdId)
    requires f < |s.cmds| && s.cursor < |s.argv|
  {
    var t := s.argv[s.cursor];
    && t != "--"
    && IsOptToken(t)
    && FindOpt(s.cmds[f].opts, Some(t)).None?
    && !s.cmds[f].conf.checkInvalid
    && FindOptByType(s.cmds[f].opts, PDefault).Some?
  }

  /** What a loop iteration that is not the terminator keeps: the parse
      precondition, the declared table, the input and the external tokens. */
  ghost predicate Kept(s: Session, t: Session) {
    && Ready(t) && t.cmds == s.cmds && t.argv == s.argv && t.mainSet == s.mainSet
    && |t.states| > 0 && |s.states| > 0 && t.states[0].external == s.states[0].external
  }

  /** The terminator: the tokens after it become the root's external
      arguments and the loop is left. */
  function Terminate(s: Session): (r: Session)
    requires Ready(s) && s.cursor < |s.argv|
    ensures Ready(r) && r.cmds == s.cmds && r.argv == s.argv && r.mainSet == s.mainSet
    ensures r.cursor == s.cursor + 1 && r.errors == s.errors
    ensures r.states[0].external == Some(s.argv[s.cursor + 1..])
    ensures forall i :: 0 <= i < |s.states| ==> r.states[i].opts == s.states[i].opts
  {
    s.(cursor := s.cursor + 1,
       states := s.states[0 := s.states[0].(external := Some(s.argv[s.cursor + 1..]))])
  }

  /** An option that takes values, found as option `k` of frame `f`, with
      the cursor on its flag token. */
  function StepValue(s: Session, f: CmdId, k: nat): (r: StepEnd)
    requires Ready(s) && f < |s.cmds| && s.cursor < |s.argv| && s.argv[s.cursor] != "--"
    requires k < |s.cmds[f].opts| && TakesValue(s.cmds[f].opts[k].kind)
    ensures r.Next? || r.Break?
    ensures Kept(s, r.s) && s.cursor < r.s.cursor && NoTerminator(s.argv, s.cursor, r.s.cursor)
    ensures r.Break? ==> r.s.errors == s.errors + 1 && r.s.cursor == s.cursor + 1
    // It fails when no value follows and none is accepted, or when a
    // single-valued option was already given.
    ensures r.Break? <==>
      || (NoValueFollows(s) && !Has(s.cmds[f].opts[k].kind, PNone))
      || (!Has(s.cmds[f].opts[k].kind, PMany) && s.states[f].opts[k].given)
    // A many-valued option takes the whole run of values, replacing the
    // earlier ones; a single-valued one takes the next token.
    ensures r.Next? && Has(s.cmds[f].opts[k].kind, PMany) ==> r.s == TakeMany(s, f, k)
    ensures r.Next? && !Has(s.cmds[f].opts[k].kind, PMany) ==> r.s == TakeOne(s, f, k)
  {
    var o := s.cmds[f].opts[k];
    if NoValueFollows(s) && !Has(o.kind, PNone) then
      // No argument given.
      Break(RaiseError(s.(cursor := s.cursor + 1)))
    else if Has(o.kind, PMany) then
      Next(TakeMany(s, f, k))
    else if s.states[f].opts[k].given then
      // Too many arguments.
      Break(RaiseError(s.(cursor := s.cursor + 1)))
    else
      assert !UnsafeArity(o.kind);
      Next(TakeOne(s, f, k))
  }

  /** The token after the cursor is missing or looks like an option. */
  predicate NoValueFollows(s: Session)
    requires s.cursor < |s.argv|
  {
    s.cursor + 1 == |s.argv| || IsOptToken(s.argv[s.cursor + 1])
  }

  /** A many-valued option takes the whole run of values after its flag,
      replacing the values it had, and is marked given. */
  function TakeMany(s: Session, f: CmdId, k: nat): (r: Session)
    requires Ready(s) && f < |s.cmds| && s.cursor < |s.argv| && s.argv[s.cursor] != "--"
    requires k < |s.cmds[f].opts|
    ensures Kept(s, r) && NoTerminator(s.argv, s.cursor, r.cursor) && r.errors == s.errors
    ensures var vals := OptionValues(s.argv, s.cursor + 1);
      r.states[f].opts[k] == OptState(Some(vals), true) && r.cursor == s.cursor + 1 + |vals|
  {
    var vals := OptionValues(s.argv, s.cursor + 1);
    RunHasNoTerminator(s.argv, s.cursor + 1, vals);
    Bind(s.(cursor := s.cursor + 1 + |vals|), f, k, Some(vals))
  }

  /** A single-valued option takes the one token after its flag and is
      marked given. */
  function TakeOne(s: Session, f: CmdId, k: nat): (r: Session)
    requires Ready(s) && f < |s.cmds| && s.cursor < |s.argv| && s.argv[s.cursor] != "--"
    requires k < |s.cmds[f].opts| && !NoValueFollows(s)
    ensures Kept(s, r) && NoTerminator(s.argv, s.cursor, r.cursor) && r.errors == s.errors
    ensures r.states[f].opts[k] == OptState(Some([s.argv[s.cursor + 1]]), true) && r.cursor == s.cursor + 2
  {
    Bind(s.(cursor := s.cursor + 2), f, k, Some([s.argv[s.cursor + 1]]))
  }

  /** The values collected for an option never include the terminator. */
  lemma RunHasNoTerminator(argv: seq<string>, c: nat, vals: seq<string>)
    requires 1 <= c <= |argv| && argv[c - 1] != "--"
    requires vals == OptionValues(argv, c)
    ensures NoTerminator(argv, c - 1, c + |vals|)
  {
    assert forall p :: c <= p < c + |vals| ==> argv[p] == vals[p - c];
  }

  /** A token that looks like an option (and is not the terminator). */
  function StepOption(s: Session, f: CmdId): (r: StepEnd)
    requires Ready(s) && f < |s.cmds| && s.cursor < |s.argv|
    requires s.argv[s.cursor] != "--" && IsOptToken(s.argv[s.cursor])
    ensures r.Stuck? <==> StuckAt(s, f)
    ensures !r.Enter?
    ensures !r.Stuck? ==> Kept(s, r.s) && NoTerminator(s.argv, s.cursor, r.s.cursor)
    ensures r.Next? ==> s.cursor < r.s.cursor && r.s.errors == s.errors
    ensures r.Break? ==> s.cursor <= r.s.cursor && r.s.errors == s.errors + 1
    // An unknown option never continues the loop.
    ensures FindOpt(s.cmds[f].opts, Some(s.argv[s.cursor])).None? ==> !r.Next?
    // A switch is marked given, keeps its values and consumes one token.
    ensures var m := FindOpt(s.cmds[f].opts, Some(s.argv[s.cursor]));
      m.Some? && !TakesValue(s.cmds[f].opts[m.value].kind) ==> r == Next(TakeSwitch(s, f, m.value))
  {
    var t := s.argv[s.cursor];
    var cmd := s.cmds[f];
    match FindOpt(cmd.opts, Some(t))
    case None =>
      if cmd.conf.checkInvalid then Break(RaiseError(s))
      else if FindOptByType(cmd.opts, PDefault).None? then Break(RaiseError(s))
      else Stuck
    case Some(k) =>
      if TakesValue(cmd.opts[k].kind) then StepValue(s, f, k)
      else Next(TakeSwitch(s, f, k))
  }

  /** A switch is marked given, keeps its values and consumes its token. */
  function TakeSwitch(s: Session, f: CmdId, k: nat): (r: Session)
    requires Ready(s) && f < |s.cmds| && s.cursor < |s.argv| && s.argv[s.cursor] != "--"
    requires k < |s.cmds[f].opts|
    ensures Kept(s, r) && NoTerminator(s.argv, s.cursor, r.cursor) && r.errors == s.errors
    ensures r.states[f].opts[k] == s.states[f].opts[k].(given := true) && r.cursor == s.cursor + 1
  {
    Bind(s.(cursor := s.cursor + 1), f, k, s.states[f].opts[k].value)
  }

  /** A token that does not look like an option: a sub-command name, or a
      positional value for the default option. */
  function StepWord(s: Session, f: CmdId): (r: StepEnd)
    requires Ready(s) && f < |s.cmds| && s.cursor < |s.argv| && !IsOptToken(s.argv[s.cursor])
    ensures r.Next? || r.Enter?
    ensures Kept(s, r.s) && r.s.cursor == s.cursor + 1
    ensures r.Enter? ==> r.child < |s.cmds| && r.s.states[r.child].given && r.s.errors == s.errors
    ensures r.Next? ==> s.errors <= r.s.errors <= s.errors + 1
    // It descends exactly on the name of a sub-command marker, into the
    // registered command of that name.
    ensures var m := FindOpt(s.cmds[f].opts, Some(s.argv[s.cursor]));
      r.Enter? <==> m.Some? && s.cmds[f].opts[m.value].kind == Subcmd
    ensures r.Enter? ==> s.cmds[r.child].name == s.argv[s.cursor]
    // Any other word is appended to the default option, or is an error
    // when there is none.
    ensures var d := FindOptByType(s.cmds[f].opts, PDefault);
      r.Next? && d.Some? ==>
        && r.s.errors == s.errors
        && r.s.states[f].opts[d.value] == OptState(Some(AddValue(s.states[f].opts[d.value].value, s.argv[s.cursor])), true)
    ensures r.Next? && FindOptByType(s.cmds[f].opts, PDefault).None? ==> r.s.errors == s.errors + 1
  {
    var t := s.argv[s.cursor];
    var cmd := s.cmds[f];
    var m := FindOpt(cmd.opts, Some(t));
    if m.Some? && cmd.opts[m.value].kind == Subcmd then
      assert cmd.opts[m.value].name == t;
      var c := FindCmdByName(s.cmds, t).value;
      Enter(Select(s.(cursor := s.cursor + 1), f, m.value, c), c)
    else
      match FindOptByType(cmd.opts, PDefault)
      case None =>
        // No default option: an error, but scanning goes on.
        Next(RaiseError(s.(cursor := s.cursor + 1)))
      case Some(d) =>
        Next(AddDefault(s.(cursor := s.cursor + 1), f, d, t))
  }

  /** One iteration of the scanning loop of frame `f` on a token other
      than the terminator. */
  function Step(s: Session, f: CmdId): (r: StepEnd)
    requires Ready(s) && f < |s.cmds| && s.cursor < |s.argv| && s.argv[s.cursor] != "--"
    ensures r.Stuck? <==> StuckAt(s, f)
    ensures !r.Stuck? ==> Kept(s, r.s) && NoTerminator(s.argv, s.cursor, r.s.cursor)
    ensures r.Next? || r.Enter? ==> s.cursor < r.s.cursor
    ensures r.Enter? ==> r.child < |s.cmds| && r.s.states[r.child].given && r.s.errors == s.errors
    ensures r.Next? ==> s.errors <= r.s.errors <= s.errors + 1
    // The only way out of the loop other than the terminator is an error.
    ensures r.Break? ==> s.cursor <= r.s.cursor && r.s.errors == s.errors + 1
  {
    if IsOptToken(s.argv[s.cursor]) then StepOption(s, f)
    else StepWord(s, f)
  }

  /** How one frame ends: all input consumed (or the terminator reached)
      without errors, a sub-command to continue with, errors, or a loop that
      never ends. */
  datatype FrameEnd = Done | Descend(child: CmdId) | Failed | Diverged

  /** How a frame started on `s` may end in `t` with `e`: the parse
      precondition and the input are kept, the cursor and the error count
      only grow, a descent enters a selected command, success means no
      errors and failure some, and a frame that never ends sits on a token
      it cannot advance past. A frame that succeeds has consumed all input
      or stopped right after a terminator. Either no terminator was
      consumed and the external tokens are as before, or the frame ended
      right after the first terminator it met, handing the root the tokens
      after it. */
  ghost predicate FrameEnds(s: Session, f: CmdId, t: Session, e: FrameEnd)
    requires Ready(s) && f < |s.cmds|
  {
    && Ready(t) && t.cmds == s.cmds && t.argv == s.argv && t.mainSet == s.mainSet
    && s.cursor <= t.cursor && s.errors <= t.errors
    && (e.Descend? ==> s.cursor < t.cursor && e.child < |s.cmds| && t.states[e.child].given)
    && (e.Done? ==> t.errors == 0)
    && (e.Failed? ==> t.errors > 0)
    && (e.Diverged? ==> t.cursor < |s.argv| && StuckAt(t, f))
    && (e.Done? ==> t.cursor == |s.argv| || (s.cursor < t.cursor && s.argv[t.cursor - 1] == "--"))
    && (|| (t.states[0].external == s.states[0].external && NoTerminator(s.argv, s.cursor, t.cursor))
        || (&& (e.Done? || e.Failed?)
            && s.cursor < t.cursor && s.argv[t.cursor - 1] == "--"
            && NoTerminator(s.argv, s.cursor, t.cursor - 1)
            && t.states[0].external == Some(s.argv[t.cursor..])))
  }

  /** A loop iteration that continues, followed by the rest of the frame,
      is a frame. */
  lemma FrameChain(s: Session, f: CmdId, t: Session, u: Session, e: FrameEnd)
    requires Ready(s) && f < |s.cmds|
    requires Kept(s, t) && s.cursor < t.cursor && s.errors <= t.errors
    requires NoTerminator(s.argv, s.cursor, t.cursor)
    requires FrameEnds(t, f, u, e)
    ensures FrameEnds(s, f, u, e)
  {
  }

  /** The scanning loop of frame `f`; at loop exit the root's error counter
      decides between success and failure. */
  function ParseOpts(s: Session, f: CmdId): (r: (Session, FrameEnd))
    requires Ready(s) && f < |s.cmds|
    ensures FrameEnds(s, f, r.0, r.1)
    decreases |s.argv| - s.cursor
  {
    if s.cursor == |s.argv| then
      (s, if s.errors > 0 then Failed else Done)
    else if s.argv[s.cursor] == "--" then
      // The terminator hands the rest of the input to the root and ends
      // the loop.
      var t := Terminate(s);
      (t, if t.errors > 0 then Failed else Done)
    else
      match Step(s, f)
      case Stuck => (s, Diverged)
      case Enter(t, c) => (t, Descend(c))
      case Break(t) => (t, if t.errors > 0 then Failed else Done)
      case Next(t) =>
        var r := ParseOpts(t, f);
        FrameChain(s, f, t, r.0, r.1);
        r
  }

  /** The outcome of the whole parse. */
  datatype ParseResult = Parsed | ParseFailed(origin: CmdId) | Diverges

  /** How the whole parse started on `s` may end in `t` with `res`: the
      table and input are kept, the cursor and the error count only grow,
      success means no errors and failure some, a parse that never ends
      stops on a token, and a successful parse has consumed all input or
      stopped right after a terminator. Either no terminator was consumed
      and the external tokens are as before, or the parse ended right after
      the first terminator at or after the start, and the root's external
      tokens are the ones after it. */
  ghost predicate ParseEnds(s: Session, t: Session, res: ParseResult)
    requires Ready(s)
  {
    && Ready(t) && t.cmds == s.cmds && t.argv == s.argv && t.mainSet == s.mainSet
    && s.cursor <= t.cursor && s.errors <= t.errors
    && (res.Parsed? ==> t.errors == 0)
    && (res.Parsed? ==> t.cursor == |s.argv| || (s.cursor < t.cursor && s.argv[t.cursor - 1] == "--"))
    && (res.ParseFailed? ==> t.errors > 0 && res.origin < |s.cmds|)
    && (res.Diverges? ==> t.cursor < |s.argv|)
    && (|| (t.states[0].external == s.states[0].external && NoTerminator(s.argv, s.cursor, t.cursor))
        || (&& !res.Diverges?
            && s.cursor < t.cursor && s.argv[t.cursor - 1] == "--"
            && NoTerminator(s.argv, s.cursor, t.cursor - 1)
            && t.states[0].external == Some(s.argv[t.cursor..])))
  }

  /** Run frames depth-first from frame `f`: a frame that descends hands
      the cursor to the child frame; the frame that ends with errors is the
      error origin. */
  function SetupAndParse(s: Session, f: CmdId): (r: (Session, ParseResult))
    requires Ready(s) && f < |s.cmds|
    ensures ParseEnds(s, r.0, r.1)
    decreases |s.argv| - s.cursor
  {
    var (t, e) := ParseOpts(s, f);
    match e
    case Done => (t, Parsed)
    case Failed => (t, ParseFailed(f))
    case Diverged => (t, Diverges)
    case Descend(c) =>
      var (u, res) := SetupAndParse(t, c);
      DescentChain(s, f, t, c, u, res);
      (u, res)
  }

  /** A frame that descends, followed by the parse of the child, is again
      a parse ending as described. */
  lemma DescentChain(s: Session, f: CmdId, t: Session, c: CmdId, u: Session, res: ParseResult)
    requires Ready(s) && f < |s.cmds|
    requires FrameEnds(s, f, t, Descend(c)) && ParseEnds(t, u, res)
    ensures ParseEnds(s, u, res)
  {
  }
}
