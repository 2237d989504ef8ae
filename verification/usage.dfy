/** The usage text: one synopsis line built from the visible options, then
    one documentation block per visible option, sub-commands listed
    separately. */
module Usage {
  import opened Maybe
  import opened OptionType
  import opened Entities

  /** The width of the option-id column. The column format is built as
      "%-<tab>s"; a negative tab doubles the '-' flag, which printf reads as
      one, so the width is the magnitude of the tab. */
  function Width(tab: int): (w: nat)
    ensures w == tab || w == -tab
  {
    if tab < 0 then -tab else tab
  }

  function Spaces(n: nat): (r: string)
    ensures |r| == n
  {
    seq(n, _ => ' ')
  }

  /** Left-justify `s` in a field of `w` characters; a longer `s` is kept
      whole. */
  function Pad(s: string, w: nat): (r: string)
    ensures |r| == if |s| < w then w else |s|
    ensures r[..|s|] == s
  {
    if |s| < w then s + Spaces(w - |s|) else s
  }

  /** A run of spaces holds nothing but blanks. */
  lemma SpacesAreBlank(n: nat)
    ensures forall i :: 0 <= i < n ==> Spaces(n)[i] == ' '
  {
  }

  /** Padding fills the field after `s` with blanks only. */
  lemma PadIsBlank(s: string, w: nat)
    ensures forall i :: |s| <= i < |Pad(s, w)| ==> Pad(s, w)[i] == ' '
  {
  }

  predicate Hidden(o: Opt) {
    Has(o.kind, PHidden)
  }

  /** The repetition marker after a value placeholder: '*' for zero or
      more values, '+' for one or more, nothing for exactly one. */
  function Repeat(o: Opt): (m: string)
    ensures m == "*" <==> Has(o.kind, PNone) && Has(o.kind, PMany)
    ensures m == "+" <==> !Has(o.kind, PNone) && Has(o.kind, PMany)
    ensures m == "" <==> !Has(o.kind, PMany)
  {
    if Has(o.kind, PNone) && Has(o.kind, PMany) then "*"
    else if Has(o.kind, PMany) then "+"
    else ""
  }

  /** An option's synopsis item without the optional-brackets: its id, and
      for a value-taking option a "<name>" placeholder with the
      repetition marker. */
  function Item(o: Opt): (r: string)
    ensures HasSwitchStyleDoc(o) ==> r == OptId(o)
    ensures !HasSwitchStyleDoc(o) ==> r == OptId(o) + " <" + o.name + ">" + Repeat(o)
  {
    OptId(o) + if HasSwitchStyleDoc(o) then "" else " <" + o.name + ">" + Repeat(o)
  }

  /** An option's synopsis item: nothing for a hidden option, the item in
      square brackets for an optional one. */
  function OptCmdline(o: Opt): (r: string)
    ensures Hidden(o) ==> r == ""
    ensures !Hidden(o) && Has(o.kind, POpt) ==>
      |r| == |Item(o)| + 2 && r[0] == '[' && r[|r| - 1] == ']' && r[1..|r| - 1] == Item(o)
    ensures !Hidden(o) && !Has(o.kind, POpt) ==> r == Item(o)
  {
    if Hidden(o) then ""
    else if Has(o.kind, POpt) then "[" + Item(o) + "]"
    else Item(o)
  }

  /** The synopsis after the command name: a space and the item of every
      visible option in order, up to the first visible sub-command marker,
      which shows as "<<subcommand>>" and ends the synopsis. */
  function Synopsis(opts: seq<Opt>): (r: string)
    ensures r == "" <==> forall j :: 0 <= j < |opts| ==> Hidden(opts[j])
  {
    if |opts| == 0 then ""
    else if Hidden(opts[0]) then Synopsis(opts[1..])
    else if opts[0].kind == Subcmd then " <<subcommand>>"
    else " " + OptCmdline(opts[0]) + Synopsis(opts[1..])
  }

  /** Options after the first visible sub-command marker do not reach
      the synopsis, which ends with the marker's "<<subcommand>>". */
  lemma {:induction false} SynopsisStopsAtSubcmd(opts: seq<Opt>, k: nat, more: seq<Opt>)
    requires k < |opts| && !Hidden(opts[k]) && opts[k].kind == Subcmd
    ensures Synopsis(opts + more) == Synopsis(opts)
    ensures EndsWith(Synopsis(opts), " <<subcommand>>")
    decreases |opts|
  {
    var all := opts + more;
    assert all[0] == opts[0] && all[1..] == opts[1..] + more;
    if Hidden(opts[0]) {
      SynopsisStopsAtSubcmd(opts[1..], k - 1, more);
    } else if opts[0].kind != Subcmd {
      SynopsisStopsAtSubcmd(opts[1..], k - 1, more);
      EndsWithPrefixed(" " + OptCmdline(opts[0]), Synopsis(opts[1..]), " <<subcommand>>");
    }
  }

  lemma EndsWithPrefixed(a: string, b: string, t: string)
    requires EndsWith(b, t)
    ensures EndsWith(a + b, t)
  {
    assert (a + b)[|a + b| - |t|..] == b[|b| - |t|..];
  }

  /** Index of the first newline at or after `i`, or the end. */
  function NextNewline(d: string, i: nat): (e: nat)
    requires i <= |d|
    ensures i <= e <= |d| && (e < |d| ==> d[e] == '\n')
    decreases |d| - i
  {
    if i == |d| || d[i] == '\n' then i else NextNewline(d, i + 1)
  }

  /** The newline found is the first one. */
  lemma {:induction false} NextNewlineIsFirst(d: string, i: nat)
    requires i <= |d|
    ensures forall k :: i <= k < NextNewline(d, i) ==> d[k] != '\n'
    decreases |d| - i
  {
    if i < |d| && d[i] != '\n' {
      NextNewlineIsFirst(d, i + 1);
    }
  }

  /** The lines of `d[s..]`: the pieces between newlines. */
  function SegmentsFrom(d: string, s: nat): (segs: seq<string>)
    requires s <= |d|
    ensures |segs| >= 1
    decreases |d| - s
  {
    var e := NextNewline(d, s);
    if e == |d| then [d[s..]] else [d[s..e]] + SegmentsFrom(d, e + 1)
  }

  function Segments(d: string): (segs: seq<string>)
    ensures |segs| >= 1
  {
    SegmentsFrom(d, 0)
  }

  /** Lines joined with newlines between them. */
  function Join(segs: seq<string>): string
    requires |segs| >= 1
  {
    if |segs| == 1 then segs[0] else segs[0] + "\n" + Join(segs[1..])
  }

  /** One line of a documentation block. The first line carries the id,
      padded to the column width. A later line starting with a tab is
      aligned with the documentation column (the tab itself dropped); any
      other later line starts at the left margin. */
  function Line(id: string, seg: string, w: nat, first: bool): string {
    if first then "  " + Pad(id, w) + seg + "\n"
    else if |seg| > 0 && seg[0] == '\t' then "  " + Pad("", w) + seg[1..] + "\n"
    else seg + "\n"
  }

  /** A documentation line: the first carries the padded id after two
      spaces; a later line starting with a tab is indented by two spaces
      plus the column width, in place of the tab; any other later line is
      written as it is. Every line ends with one newline. */
  lemma LineLayout(id: string, seg: string, w: nat, first: bool)
    ensures var r := Line(id, seg, w, first);
      first ==> r == "  " + Pad(id, w) + seg + "\n"
    ensures var r := Line(id, seg, w, first);
      !first && |seg| > 0 && seg[0] == '\t' ==> r == Spaces(2 + w) + seg[1..] + "\n"
    ensures var r := Line(id, seg, w, first);
      !first && !(|seg| > 0 && seg[0] == '\t') ==> r == seg + "\n"
  {
    assert "  " + Pad("", w) == Spaces(2 + w);
  }

  /** The documentation block from the given lines on. */
  function DocLines(id: string, segs: seq<string>, w: nat, first: bool): string {
    if |segs| == 0 then "" else Line(id, segs[0], w, first) + DocLines(id, segs[1..], w, false)
  }

  /** The documentation block of an option: hidden options have none. */
  function OptDoc(o: Opt, tab: int): (r: string)
    ensures Hidden(o) ==> r == ""
    ensures !Hidden(o) ==> "  " + Pad(OptId(o), Width(tab)) <= r
  {
    if Hidden(o) then ""
    else
      var segs := Segments(o.doc);
      assert DocLines(OptId(o), segs, Width(tab), true)
        == Line(OptId(o), segs[0], Width(tab), true) + DocLines(OptId(o), segs[1..], Width(tab), false);
      DocLines(OptId(o), segs, Width(tab), true)
  }

  /** The library's scan of the documentation string: `e` runs ahead from
      the start `s` of the current line to the next newline or the end,
      and each line from `s` to `e` is emitted as it is reached. */
  function ScanDoc(id: string, doc: string, w: nat, s: nat, e: nat, first: bool): string
    requires s <= e <= |doc|
    decreases |doc| - e
  {
    if e == |doc| then Line(id, doc[s..e], w, first)
    else if doc[e] == '\n' then Line(id, doc[s..e], w, first) + ScanDoc(id, doc, w, e + 1, e + 1, false)
    else ScanDoc(id, doc, w, s, e + 1, first)
  }

  /** The library's scan emits the documentation block: one line per
      newline-separated piece, in order. */
  lemma {:induction false} ScanIsSplit(id: string, doc: string, w: nat, s: nat, e: nat, first: bool)
    requires s <= e <= |doc| && NextNewline(doc, e) == NextNewline(doc, s)
    ensures ScanDoc(id, doc, w, s, e, first) == DocLines(id, SegmentsFrom(doc, s), w, first)
    decreases |doc| - e
  {
    if e == |doc| || doc[e] == '\n' {
      var segs := SegmentsFrom(doc, s);
      assert NextNewline(doc, e) == e;
      assert segs[0] == doc[s..e];
      if e == |doc| {
        assert segs == [doc[s..e]];
        assert DocLines(id, segs[1..], w, false) == "";
      } else {
        assert segs[1..] == SegmentsFrom(doc, e + 1);
        ScanIsSplit(id, doc, w, e + 1, e + 1, false);
      }
    } else {
      assert NextNewline(doc, e) == NextNewline(doc, e + 1);
      ScanIsSplit(id, doc, w, s, e + 1, first);
    }
  }

  /** The block of a visible option is what the library's scan prints. */
  lemma OptDocIsScan(o: Opt, tab: int)
    requires !Hidden(o)
    ensures OptDoc(o, tab) == ScanDoc(OptId(o), o.doc, Width(tab), 0, 0, true)
  {
    ScanIsSplit(OptId(o), o.doc, Width(tab), 0, 0, true);
  }

  /** The documentation block of a visible option has one line per line
      of its documentation string: a string with k newlines gives a block
      with k + 1 newline-terminated lines. */
  lemma OptDocLineCount(o: Opt, tab: int)
    requires !Hidden(o) && NewlineFree(OptId(o))
    ensures multiset(OptDoc(o, tab))['\n'] == multiset(o.doc)['\n'] + 1
  {
    SegmentsNewlineFree(o.doc, 0);
    DocLinesCount(OptId(o), Segments(o.doc), Width(tab), true);
    SegmentCount(o.doc, 0);
    assert o.doc[0..] == o.doc;
  }

  /** Each line of a block ends in the one newline it holds. */
  lemma {:induction false} DocLinesCount(id: string, segs: seq<string>, w: nat, first: bool)
    requires NewlineFree(id) && forall i :: 0 <= i < |segs| ==> NewlineFree(segs[i])
    ensures multiset(DocLines(id, segs, w, first))['\n'] == |segs|
    decreases |segs|
  {
    if |segs| > 0 {
      LineCount(id, segs[0], w, first);
      DocLinesCount(id, segs[1..], w, false);
    }
  }

  lemma LineCount(id: string, seg: string, w: nat, first: bool)
    requires NewlineFree(id) && NewlineFree(seg)
    ensures multiset(Line(id, seg, w, first))['\n'] == 1
  {
    var body :=
      if first then "  " + Pad(id, w) + seg
      else if |seg| > 0 && seg[0] == '\t' then "  " + Pad("", w) + seg[1..]
      else seg;
    PadFree(id, w);
    PadFree("", w);
    ConcatFree("  ", Pad(id, w));
    ConcatFree("  " + Pad(id, w), seg);
    if |seg| > 0 {
      ConcatFree("  ", Pad("", w));
      ConcatFree("  " + Pad("", w), seg[1..]);
    }
    assert Line(id, seg, w, first) == body + "\n";
    NoNewline(body);
  }

  lemma PadFree(id: string, w: nat)
    requires NewlineFree(id)
    ensures NewlineFree(Pad(id, w))
  {
    if |id| < w {
      ConcatFree(id, Spaces(w - |id|));
    }
  }

  lemma ConcatFree(a: string, b: string)
    requires NewlineFree(a) && NewlineFree(b)
    ensures NewlineFree(a + b)
  {
    assert forall k :: 0 <= k < |a + b| ==> (a + b)[k] == if k < |a| then a[k] else b[k - |a|];
  }

  /** No line of a documentation string holds a newline. */
  lemma {:induction false} SegmentsNewlineFree(d: string, s: nat)
    requires s <= |d|
    ensures forall i :: 0 <= i < |SegmentsFrom(d, s)| ==> NewlineFree(SegmentsFrom(d, s)[i])
    decreases |d| - s
  {
    var e := NextNewline(d, s);
    NextNewlineIsFirst(d, s);
    assert NewlineFree(d[s..e]);
    if e < |d| {
      SegmentsNewlineFree(d, e + 1);
      assert SegmentsFrom(d, s) == [d[s..e]] + SegmentsFrom(d, e + 1);
    }
  }

  /** Splitting then joining gives the documentation back. */
  lemma {:induction false} JoinSegments(d: string, s: nat)
    requires s <= |d|
    ensures Join(SegmentsFrom(d, s)) == d[s..]
    decreases |d| - s
  {
    var e := NextNewline(d, s);
    if e < |d| {
      JoinSegments(d, e + 1);
      JoinStep(d, s, e);
    } else {
      assert SegmentsFrom(d, s) == [d[s..]];
    }
  }

  lemma JoinStep(d: string, s: nat, e: nat)
    requires s <= e < |d| && e == NextNewline(d, s)
    requires Join(SegmentsFrom(d, e + 1)) == d[e + 1..]
    ensures Join(SegmentsFrom(d, s)) == d[s..]
  {
    var segs := SegmentsFrom(d, s);
    assert segs == [d[s..e]] + SegmentsFrom(d, e + 1);
    assert segs[1..] == SegmentsFrom(d, e + 1);
    SplitAtNewline(d, s, e);
    calc {
      Join(segs);
      segs[0] + "\n" + Join(segs[1..]);
      d[s..e] + "\n" + d[e + 1..];
      d[s..];
    }
  }

  /** A suffix cut at a newline. */
  lemma SplitAtNewline(d: string, s: nat, e: nat)
    requires s <= e < |d| && d[e] == '\n'
    ensures d[s..] == d[s..e] + "\n" + d[e + 1..]
    ensures multiset(d[s..])['\n'] == multiset(d[s..e])['\n'] + 1 + multiset(d[e + 1..])['\n']
  {
    assert d[s..] == d[s..e] + [d[e]] + d[e + 1..];
    assert multiset(d[s..]) == multiset(d[s..e]) + multiset([d[e]]) + multiset(d[e + 1..]);
  }

  /** One documentation line per line of the documentation string. */
  lemma {:induction false} SegmentCount(d: string, s: nat)
    requires s <= |d|
    ensures |SegmentsFrom(d, s)| == multiset(d[s..])['\n'] + 1
    decreases |d| - s
  {
    var e := NextNewline(d, s);
    NextNewlineIsFirst(d, s);
    NoNewline(d[s..e]);
    if e < |d| {
      SegmentCount(d, e + 1);
      CountStep(d, s, e);
    } else {
      assert d[s..] == d[s..e];
      assert |SegmentsFrom(d, s)| == 1;
    }
  }

  lemma CountStep(d: string, s: nat, e: nat)
    requires s <= e < |d| && e == NextNewline(d, s)
    requires multiset(d[s..e])['\n'] == 0
    requires |SegmentsFrom(d, e + 1)| == multiset(d[e + 1..])['\n'] + 1
    ensures |SegmentsFrom(d, s)| == multiset(d[s..])['\n'] + 1
  {
    SplitAtNewline(d, s, e);
    assert |SegmentsFrom(d, s)| == 1 + |SegmentsFrom(d, e + 1)|;
  }

  lemma NoNewline(t: string)
    requires forall k :: 0 <= k < |t| ==> t[k] != '\n'
    ensures multiset(t)['\n'] == 0
  {
    assert '\n' !in t;
  }

  /** Splitting a newline-free line list's join gives the lines back. */
  lemma {:induction false} SegmentsOfJoin(segs: seq<string>)
    requires |segs| >= 1
    requires forall i :: 0 <= i < |segs| ==> NewlineFree(segs[i])
    ensures Segments(Join(segs)) == segs
    decreases |segs|
  {
    if |segs| == 1 {
      var d := segs[0];
      assert NextNewline(d, 0) == |d|;
      assert d[0..] == d;
    } else {
      SegmentsOfJoin(segs[1..]);
      FirstLine(segs[0], Join(segs[1..]));
    }
  }

  predicate NewlineFree(t: string) {
    forall k :: 0 <= k < |t| ==> t[k] != '\n'
  }

  /** A newline-free first line followed by a newline is the first
      segment. */
  lemma FirstLine(h: string, tail: string)
    requires NewlineFree(h)
    ensures Segments(h + "\n" + tail) == [h] + Segments(tail)
  {
    var d := h + "\n" + tail;
    assert d[|h|] == '\n';
    assert forall k :: 0 <= k < |h| ==> d[k] == h[k];
    NextNewlineIsFirst(d, 0);
    assert NextNewline(d, 0) == |h|;
    assert d[0..|h|] == h;
    assert d[|h| + 1..] == tail;
    SegmentsShift(d, |h| + 1, 0);
  }

  /** Searching a suffix finds the same newline. */
  lemma {:induction false} NextNewlineShift(d: string, s: nat, i: nat)
    requires s + i <= |d|
    ensures NextNewline(d[s..], i) == NextNewline(d, s + i) - s
    decreases |d| - s - i
  {
    if s + i < |d| {
      assert d[s..][i] == d[s + i];
      if d[s + i] != '\n' {
        NextNewlineShift(d, s, i + 1);
      }
    }
  }

  lemma SliceOfSuffix(d: string, s: nat, a: nat, b: nat)
    requires a <= b && s + b <= |d|
    ensures d[s..][a..b] == d[s + a..s + b]
    ensures d[s..][a..] == d[s + a..]
  {
  }

  /** The lines of a suffix do not depend on where it was cut from. */
  lemma {:induction false} SegmentsShift(d: string, s: nat, i: nat)
    requires s + i <= |d|
    ensures SegmentsFrom(d[s..], i) == SegmentsFrom(d, s + i)
    decreases |d| - s - i
  {
    var e := NextNewline(d, s + i);
    NextNewlineShift(d, s, i);
    if e < |d| {
      SegmentsShift(d, s, e - s + 1);
      ShiftedLine(d, s, i, e);
    } else {
      ShiftedLast(d, s, i);
    }
  }

  /** A line of the suffix that ends in a newline. */
  lemma ShiftedLine(d: string, s: nat, i: nat, e: nat)
    requires s + i <= e < |d| && e == NextNewline(d, s + i)
    requires NextNewline(d[s..], i) == e - s
    requires SegmentsFrom(d[s..], e - s + 1) == SegmentsFrom(d, e + 1)
    ensures SegmentsFrom(d[s..], i) == SegmentsFrom(d, s + i)
  {
    SliceOfSuffix(d, s, i, e - s);
    calc {
      SegmentsFrom(d[s..], i);
      [d[s..][i..e - s]] + SegmentsFrom(d[s..], e - s + 1);
      [d[s + i..e]] + SegmentsFrom(d, e + 1);
      SegmentsFrom(d, s + i);
    }
  }

  /** The last line of the suffix. */
  lemma ShiftedLast(d: string, s: nat, i: nat)
    requires s + i <= |d| && NextNewline(d, s + i) == |d|
    requires NextNewline(d[s..], i) == |d| - s
    ensures SegmentsFrom(d[s..], i) == SegmentsFrom(d, s + i)
  {
    SliceOfSuffix(d, s, i, |d| - s);
    calc {
      SegmentsFrom(d[s..], i);
      [d[s..][i..]];
      [d[s + i..]];
      SegmentsFrom(d, s + i);
    }
  }

  /** The header, or a blank line without one. */
  function Head(c: Command): string {
    if c.conf.header.Some? then c.conf.header.value else "\n"
  }

  /** The footer, or a newline without one. */
  function Foot(c: Command): string {
    if c.conf.footer.Some? then c.conf.footer.value else "\n"
  }

  /** The root shows its name; a sub-command shows its long name under a
      heading. */
  function Title(c: Command): string {
    if c.parent.None? then "  " + c.name
    else "  Subcommand \"" + c.name + "\" usage:\n    " + c.longname
  }

  /** The root closes with its copyright line; a sub-command with a
      newline. */
  function Closing(c: Command): string {
    if c.parent.None? then "\n\n  Copyright (c) " + OrNull(c.year) + " by " + OrNull(c.author) + "\n"
    else "\n"
  }

  /** The "Options:" label, shown only for a command with sub-commands and
      at least one visible option. */
  function OptionsLabel(c: Command): string {
    if |c.subcmds| > 0 && Synopsis(c.opts) != "" then "  Options:\n" else ""
  }

  function SubcmdsLabel(c: Command): string {
    if |c.subcmds| > 0 then "\n  Subcommands:\n" else ""
  }

  /** The usage text of a command. */
  function CmdUsage(c: Command): (r: string)
    ensures c.conf.header.Some? ==> c.conf.header.value <= r
    ensures c.conf.header.None? ==> "\n" <= r
    ensures c.conf.footer.Some? ==> EndsWith(r, c.conf.footer.value)
    ensures c.conf.footer.None? ==> EndsWith(r, "\n")
  {
    Framed(Head(c), TopBody(c) + BottomBody(c), Foot(c))
  }

  /** The text between the header and the documentation of sub-commands. */
  function TopBody(c: Command): string {
    Title(c) + Synopsis(c.opts) + "\n\n" + OptionsLabel(c) + OptionDocs(c.opts, c.conf.tab, false)
  }

  /** The text between the documentation of options and the footer. */
  function BottomBody(c: Command): string {
    SubcmdsLabel(c) + OptionDocs(c.opts, c.conf.tab, true) + Closing(c)
  }

  /** The parts of the usage text in order: the header, the title and
      synopsis, the documentation of the options (under "Options:" exactly
      when the command has sub-commands and a visible option), then that of
      the sub-commands (under "Subcommands:" when it has any), the
      copyright line of the root or a newline for a sub-command, and the
      footer. */
  lemma UsageLayout(c: Command)
    ensures var labelled := |c.subcmds| > 0 && exists j :: 0 <= j < |c.opts| && !Hidden(c.opts[j]);
      Head(c) + Title(c) + Synopsis(c.opts) + "\n\n" + (if labelled then "  Options:\n" else "")
        + OptionDocs(c.opts, c.conf.tab, false) <= CmdUsage(c)
    ensures |c.subcmds| > 0 ==>
      EndsWith(CmdUsage(c), "\n  Subcommands:\n" + OptionDocs(c.opts, c.conf.tab, true) + Closing(c) + Foot(c))
    ensures |c.subcmds| == 0 ==> EndsWith(CmdUsage(c), OptionDocs(c.opts, c.conf.tab, true) + Closing(c) + Foot(c))
    ensures c.parent.None? ==>
      EndsWith(CmdUsage(c), "\n\n  Copyright (c) " + OrNull(c.year) + " by " + OrNull(c.author) + "\n" + Foot(c))
    ensures c.parent.Some? ==> EndsWith(CmdUsage(c), "\n" + Foot(c))
  {
    FramedParts(Head(c), TopBody(c), BottomBody(c), Foot(c));
    var labelled := |c.subcmds| > 0 && exists j :: 0 <= j < |c.opts| && !Hidden(c.opts[j]);
    assert OptionsLabel(c) == if labelled then "  Options:\n" else "";
    Assoc(Head(c), Title(c), Synopsis(c.opts), OptionsLabel(c), OptionDocs(c.opts, c.conf.tab, false));
    var d := OptionDocs(c.opts, c.conf.tab, true);
    var closing := Closing(c) + Foot(c);
    assert BottomBody(c) + Foot(c) == (SubcmdsLabel(c) + d) + closing;
    ConcatEnds(SubcmdsLabel(c) + d, closing);
    EndsWithOfEndsWith(CmdUsage(c), BottomBody(c) + Foot(c), closing);
    if |c.subcmds| == 0 {
      assert SubcmdsLabel(c) == "" && "" + d == d;
    }
  }

  /** The header and the first part of the body open a framed text; the
      rest of the body and the footer close it. */
  lemma FramedParts(h: string, a: string, b: string, f: string)
    ensures h + a <= Framed(h, a + b, f)
    ensures EndsWith(Framed(h, a + b, f), b + f)
  {
    var r := Framed(h, a + b, f);
    assert r == (h + a) + (b + f);
    assert r[|h + a|..] == b + f;
  }

  lemma Assoc(h: string, t: string, s: string, l: string, d: string)
    ensures h + (t + s + "\n\n" + l + d) == h + t + s + "\n\n" + l + d
  {
  }

  lemma ConcatEnds(a: string, b: string)
    ensures a <= a + b && EndsWith(a + b, b)
  {
    assert (a + b)[|a|..] == b;
  }

  lemma EndsWithOfEndsWith(a: string, b: string, t: string)
    requires EndsWith(a, b) && EndsWith(b, t)
    ensures EndsWith(a, t)
  {
    assert a[|a| - |t|..] == a[|a| - |b|..][|b| - |t|..];
  }

  function Framed(head: string, body: string, foot: string): (r: string)
    ensures head <= r && EndsWith(r, foot)
  {
    assert (head + body + foot)[..|head|] == head;
    assert (head + body + foot)[|head + body|..] == foot;
    head + body + foot
  }

  predicate EndsWith(r: string, t: string) {
    |t| <= |r| && r[|r| - |t|..] == t
  }

  /** A string printed with "%s": a missing one shows as "(null)". */
  function OrNull(t: Option<string>): string {
    if t.Some? then t.value else "(null)"
  }

  /** The documentation blocks of the options that are (`subs`) or are not
      sub-command markers, in declaration order. */
  function OptionDocs(opts: seq<Opt>, tab: int, subs: bool): string {
    if |opts| == 0 then ""
    else
      var own := if (opts[0].kind == Subcmd) == subs then OptDoc(opts[0], tab) else "";
      own + OptionDocs(opts[1..], tab, subs)
  }

  function Visible(opts: seq<Opt>): seq<Opt> {
    if |opts| == 0 then []
    else (if Hidden(opts[0]) then [] else [opts[0]]) + Visible(opts[1..])
  }

  /** Hidden options leave no trace in the usage text: removing them gives
      the same text. */
  lemma {:induction false} HiddenLeavesNoTrace(c: Command)
    ensures CmdUsage(c.(opts := Visible(c.opts))) == CmdUsage(c)
  {
    SynopsisVisible(c.opts);
    DocsVisible(c.opts, c.conf.tab, false);
    DocsVisible(c.opts, c.conf.tab, true);
  }

  lemma {:induction false} SynopsisVisible(opts: seq<Opt>)
    ensures Synopsis(Visible(opts)) == Synopsis(opts)
  {
    if |opts| > 0 {
      var v := Visible(opts);
      SynopsisVisible(opts[1..]);
      if Hidden(opts[0]) {
        assert v == Visible(opts[1..]);
      } else {
        assert v == [opts[0]] + Visible(opts[1..]);
        assert v[0] == opts[0] && v[1..] == Visible(opts[1..]);
      }
    }
  }

  lemma {:induction false} DocsVisible(opts: seq<Opt>, tab: int, subs: bool)
    ensures OptionDocs(Visible(opts), tab, subs) == OptionDocs(opts, tab, subs)
  {
    if |opts| > 0 {
      var v := Visible(opts);
      var rest := OptionDocs(opts[1..], tab, subs);
      DocsVisible(opts[1..], tab, subs);
      if Hidden(opts[0]) {
        assert v == Visible(opts[1..]);
        assert OptDoc(opts[0], tab) == "";
        assert OptionDocs(opts, tab, subs) == "" + rest;
        assert "" + rest == rest;
      } else {
        assert v == [opts[0]] + Visible(opts[1..]);
        assert v[0] == opts[0] && v[1..] == Visible(opts[1..]);
      }
    }
  }
}
