# como: a model of the command-line engine

The como library turns a declarative table of options into a getopt-style
parser. A program names its root command and, optionally, sub-commands, each
with a table of specification rows (type, name, short switch, documentation).
The library then scans the argument vector against the command tree, binds
values to options, checks that required options and sub-commands were given,
and renders usage text.

This project models that engine as pure Dafny functions over an explicit
`Session` value. The C code keeps its state in file-scope globals: the active
and main commands, the argument index, the command list and the argument
vector. Here the session holds the argument vector (without the program name),
a cursor, a command table indexed by id (id 0 is the root), the parse state of
every command and option, and the root's error counter.

Modules, one per part of `src/como.c`:

- `OptionType` (flags.dfy): the sugar tags and primitive flags of `src/como.h`,
  and the sugar-to-primitive conversion table.
- `Entities` (entities.dfy): specification rows, options, configuration,
  commands, the session, option creation and the option id.
- `Lookup` (lookup.dfy): `find_opt_by_type`, `find_opt_by_name` and `find_opt`.
- `Registry` (registry.dfy): `como_init`, `como_spec_subcmd` and the
  configuration setters.
- `Tokenizer` (tokenizer.dfy): `get_option_values`, `add_value`, the loop of
  `parse_opts`, one iteration at a time, and `setup_and_parse`.
- `Validator` (validator.dfy): `check_missing`.
- `Usage` (usage.dfy): `opt_cmdline`, `opt_doc` and the text that
  `como_cmd_usage` prints.
- `Como` (como.dfy): `usage_if_help`, `como_finish`, what `como_cmd_usage`
  prints, the queries and the `como_maincmd`/`como_command` macros.
- `Scenarios` (scenarios.dfy): concrete runs on the specification table of
  the `como_simple` example (with and without a terminator), on a root that
  tolerates unknown options, and on a small tree that exhibits the first
  finding below.

Where the code and its documentation disagree, the model follows the code:

- The synthesised help option is created as a silent switch: optional and
  hidden, but not mutually exclusive. Giving `-h` does not excuse missing
  required options, and the help request is honoured only after the missing
  check passes.
- A command whose missing check is disabled passes at once. The check does
  not descend into its selected sub-command.
- A positional token with no default option to take it raises an error, but
  scanning goes on. A later sub-command token can still hand the rest of the
  input to a child frame, which then becomes the error origin.
- The configuration setters write the root's configuration for the whole of
  registration. The header says a sub-command "can be configured after" it is
  specified, but a sub-command keeps the snapshot of its parent's
  configuration taken when it was specified.
- Documentation ids are padded to the tab width, never truncated.
- The header's structure declarations (plinth types, with `valuecnt` and
  `subcmdcnt` commented out) do not match how `src/como.c` uses the fields.
  The model takes the field meanings from `src/como.c`.

## Model

| member | source | states |
|---|---|---|
| OptionType.ToPrimitives | src/como.c:128-140 | every sugar tag other than the sub-command marker becomes a set of primitive bits only, accepting no value or taking values; any other type value is kept unchanged |
| OptionType.SugarMeaning | src/como.h:14-46 | what each sugar tag means as primitives: a switch takes no value and is optional; single takes exactly one value and is required; multi carries both ONE and MANY (one or more values) and is required; the optional variants carry OPT; any, default and exclusive accept none, one or many; default is positional, exclusive is mutually exclusive and silent is hidden |
| OptionType.SugarInjective | src/como.c:128-140 | two different sugar tags never convert to the same primitive set |
| OptionType.PrimitivesNeverSubcmd | src/como.h:13-46 | sugar bits and primitive bits are disjoint, so no primitive combination and no converted tag equals the raw sub-command marker |
| Entities.OptCreate | src/como.c:105-152 | the option's type is the converted type; the default option is forced to name and short switch `<default>`; otherwise name and short switch are the row's; the long form is always `--` followed by the name |
| Entities.ConfigCreate | src/como.h:105-155 | the configuration defaults: automatic help, sub-command check, missing check, invalid check and exit after help on; no header or footer; tab 12 |
| Entities.ConfigDup | src/como.c:187-206 | the copy equals its source in every field |
| Entities.OptId | src/como.c:1038-1044 | an option is identified by its short switch when it has one and by its long form otherwise; a sub-command marker is identified by its name |
| Entities.RowWithoutShortUsesLongForm | src/como.h:56-62 | a row with a NULL short switch (not a sub-command marker or default row) is identified by `--` followed by its name |
| Entities.FindCmdByName | src/como.c:228-236 | the global lookup returns the first registered command with the name, and nothing exactly when no command has it |
| Lookup.FindOptByType | src/como.c:267-281 | the first option whose type shares a bit with the mask; nothing exactly when none does |
| Lookup.FindOptByName | src/como.c:292-314 | no name selects the default option; otherwise the first option with exactly that name, or nothing when no option has it |
| Lookup.NameLookupIsFirst | src/como.c:292-314 | the lookup by name returns the first option answering to the name (for no name, the first default option), and nothing exactly when no option answers |
| Lookup.FindOpt | src/como.c:329-377 | the first option in declaration order that the token designates: no token the default option, a `--` prefix an exact long form, a `-` prefix an exact short switch, anything else an exact name; nothing exactly when no option is designated |
| Lookup.FoundIsExact | src/como.c:329-377 | a found option matches the token exactly, and a single-dash token only ever finds an option that has a short switch |
| Lookup.FirstDeclaredWins | src/como.c:329-377 | options declared after a match never change the lookup result |
| Registry.BuildOpts | src/como.c:1291-1319 | the option list is the help option first when automatic help is on, then one option per row in row order; its length is the row count, plus one with automatic help |
| Registry.Init | src/como.c:1226-1250 | the session's arguments are the vector without the program name; the root exists alone, without options, with the author, the year and the default configuration |
| Registry.SpecCommand | src/como.c:1253-1320 | specifying the root names it and builds its options under its own configuration; specifying a sub-command appends a command whose long name is the parent's long name, a space and its name, whose configuration equals the parent's, and which is added last to the parent's sub-commands; nothing else changes |
| Registry.Configure | src/como.c:1051-1065 | a setter changes exactly the named field of the root's configuration and leaves every other command as it was |
| Registry.ConfigIsSnapshot | src/como.c:1276-1289 | a sub-command's configuration is the parent's at the time of specification, and a setter called afterwards reaches only the root |
| Registry.SpecKeepsLongNames | src/como.c:1264-1289 | every long name stays the chain of ancestor names from the root, separated by single spaces |
| Registry.ChainUnchanged | src/como.c:1276-1289 | registering a command does not change the name chain of any command already registered; the new command's chain extends its parent's |
| Registry.AddChildValid | src/como.c:245-256 | appending a child to its parent's sub-command list keeps every parent before its children |
| Tokenizer.OptionValues | src/como.c:445-474 | the values taken are the tokens from the cursor up to the next option-looking token (a `--` included) or the end, in order, none of them option-looking |
| Tokenizer.GetOptionValues | src/como.c:445-474 | the count-rewind-copy loop collects exactly those tokens and leaves the cursor just after them |
| Tokenizer.MaximalRun | src/como.c:452-468 | a run of non-option tokens that ends at an option or at the end is exactly what is collected |
| Tokenizer.AddValue | src/como.c:484-514 | a missing value array becomes a one-element array; otherwise the item is appended and the old items are kept in order |
| Tokenizer.SetOpt | src/como.c:601-757 | updating one option's state leaves the command table, the input, the cursor and the error count unchanged |
| Tokenizer.Bind | src/como.c:689-701 | binding marks the option given with the new value array and counts it on its command, nothing else changing |
| Tokenizer.AddDefault | src/como.c:724-730 | a positional token is appended to the default option's values and marks it given |
| Tokenizer.Select | src/como.c:736-741 | a sub-command token marks its marker and the selected command as given |
| Tokenizer.Terminate | src/como.c:610-615 | the terminator is consumed and the root's external tokens become the tokens after it; no option state changes |
| Tokenizer.TakeMany | src/como.c:669-673 | a many-valued option is bound to the whole run of values after its flag, replacing what it had, marked given, and the cursor moves past the run; the error count is unchanged |
| Tokenizer.TakeOne | src/como.c:676-691 | a single-valued option is bound to exactly the token after its flag, marked given, and the cursor moves two tokens |
| Tokenizer.TakeSwitch | src/como.c:695-702 | a switch keeps its value, is marked given, and the cursor moves one token |
| Tokenizer.StepValue | src/como.c:654-694 | the option fails with one more error exactly when no value follows and it does not accept none, or when it is single-valued and already given; otherwise a many-valued option takes the whole run of values and a single-valued one takes the next token |
| Tokenizer.RunHasNoTerminator | src/como.c:445-474 | the values collected for an option never include a `--` |
| Tokenizer.StepOption | src/como.c:618-702 | an option-looking token never descends; an unknown one never continues the loop (it leaves it with an error, or sticks in the fallback that never advances); a known switch is taken as a switch; errors leave the loop with one more error |
| Tokenizer.StepWord | src/como.c:704-744 | a word always advances by one token; it descends exactly when it names a sub-command marker, into the command of that name; otherwise its value is appended to the default option, which is marked given, or, without a default option, one error is raised and scanning continues |
| Tokenizer.Step | src/como.c:618-746 | one loop iteration: it gets stuck exactly in the unknown-option fallback, otherwise advances past no terminator, keeps the table and the external tokens, descends only into a selected command, and leaves the loop only with one more error |
| Tokenizer.ParseOpts | src/como.c:601-757 | a frame keeps the table and input, only grows the cursor and the error count, descends only into a selected command, succeeds only with no errors and fails only with some, diverges only on the stuck fallback, ends successfully only at the end of the input or right after a terminator, and sets the root's external tokens only to what follows the first terminator it meets |
| Tokenizer.FrameChain | src/como.c:606-756 | an iteration that continues followed by the rest of the loop is again a frame ending as described |
| Tokenizer.SetupAndParse | src/como.c:769-796 | the whole parse, across descents, keeps the table and input, only grows the cursor and the error count, succeeds only with no errors and only at the end of the input or right after a terminator, fails only with some errors at a registered origin, and either meets no terminator and keeps the external tokens or stops right after the first terminator from its start and hands the root the tokens after it |
| Tokenizer.DescentChain | src/como.c:781-785 | a frame that descends followed by the parse of the child is again a whole parse with those properties |
| Validator.FirstMissing | src/como.c:549-560 | the first option that is required (neither a sub-command marker nor optional) and not given; nothing exactly when every required option was given |
| Validator.FirstGiven | src/como.c:1021-1029 | the first listed command that was given; nothing when none was |
| Validator.GivenSubcmd | src/como.c:1021-1029 | the given sub-command is one of the command's own children, registered after it, and marked given; nothing exactly when no child was given |
| Validator.CheckMissing | src/como.c:526-587 | a disabled check passes; a given mutually exclusive option passes; a checked command lacking a required option fails with its first missing option; any failure is blamed on a command the check reaches, descending only through checked and complete commands, and that command lacks its first required option or a required sub-command; a pass of a checked command means it is complete |
| Validator.ReachedFailureIsReported | src/como.c:526-587 | conversely, a failing command the check reaches is exactly the one reported, with exactly that reason, so a pass means no reached command fails |
| Validator.CompletePathPasses | src/como.c:526-587 | when every command on the selected path is complete, the check passes |
| Usage.Width | src/como.c:846 | the column width is the magnitude of the tab setting, since a negative width in `%-Ns` only repeats the left-justify flag |
| Usage.Spaces | src/como.c:871-875 | a run of spaces has the requested length |
| Usage.SpacesAreBlank | src/como.c:871-875 | a run of spaces holds nothing but blanks |
| Usage.Pad | src/como.c:846-860 | padding keeps the id whole at the start and fills to the column width, never truncating |
| Usage.PadIsBlank | src/como.c:846-860 | everything the padding adds after the id is a blank |
| Usage.Repeat | src/como.c:817-822 | the marker is `*` exactly for none-or-many, `+` exactly for many without none, and empty exactly without many |
| Usage.Item | src/como.c:812-822 | a switch-style option shows its id alone; any other shows its id, ` <name>` and the repetition marker |
| Usage.OptCmdline | src/como.c:805-827 | a hidden option shows nothing; an optional one shows its item in square brackets; a required one shows the bare item |
| Usage.Synopsis | src/como.c:1121-1141 | the synopsis is empty exactly when every option is hidden |
| Usage.SynopsisStopsAtSubcmd | src/como.c:1121-1141 | the synopsis ends with the first visible sub-command marker, shown as ` <<subcommand>>`, and options after it add nothing |
| Usage.NextNewlineIsFirst | src/como.c:854-888 | the line end found is the first newline after the line start |
| Usage.OptDoc | src/como.c:837-889 | a hidden option has no documentation; a visible one starts with two spaces and its id padded to the column width |
| Usage.LineLayout | src/como.c:858-879 | the first documentation line is two spaces, the padded id and the text; a later line starting with a tab is indented by two spaces plus the column width instead of the tab; any other later line is written as it is; each ends with a newline |
| Usage.OptDocLineCount | src/como.c:837-889 | a visible option's documentation block holds one more newline than its documentation string: every piece becomes one line ending in a newline |
| Usage.DocLinesCount | src/como.c:853-887 | emitting newline-free pieces writes exactly one newline per piece |
| Usage.LineCount | src/como.c:853-887 | one emitted documentation line holds exactly one newline |
| Usage.SegmentsNewlineFree | src/como.c:853-887 | no piece of a documentation string holds a newline |
| Usage.PadFree | src/como.c:846-860 | padding a newline-free id adds no newline |
| Usage.ScanIsSplit | src/como.c:853-887 | the library's character scan emits exactly one documentation line per newline-separated piece, in order |
| Usage.OptDocIsScan | src/como.c:837-889 | the documentation block of a visible option is what the scan emits |
| Usage.JoinSegments | src/como.c:853-887 | joining the pieces with newlines gives the documentation string back |
| Usage.SegmentCount | src/como.c:853-887 | a documentation string with k newlines has k + 1 lines |
| Usage.SegmentsOfJoin | src/como.c:853-887 | splitting the newline-joined list of newline-free lines gives the lines back |
| Usage.FirstLine | src/como.c:853-887 | a newline-free first line followed by a newline is the first piece |
| Usage.NextNewlineShift | src/como.c:853-887 | searching a suffix finds the same newline |
| Usage.SegmentsShift | src/como.c:853-887 | the pieces of a suffix do not depend on where it was cut from |
| Usage.CmdUsage | src/como.c:1087-1187 | the usage text starts with the header, or a blank line without one, and ends with the footer, or a newline without one |
| Usage.UsageLayout | src/como.c:1096-1187 | the parts in order: header, title and synopsis, option documentation under "Options:" exactly when the command has sub-commands and a visible option, sub-command documentation under "Subcommands:" when it has any, then the copyright line with year and author for the root or a newline for a sub-command, then the footer |
| Usage.Framed | src/como.c:1096-1187 | the header opens and the footer closes the text |
| Usage.HiddenLeavesNoTrace | src/como.c:1121-1169 | removing the hidden options leaves the usage text unchanged |
| Como.UsageIfHelp | src/como.c:898-907 | the command whose usage the help request shows is on the selected path and its help option was given |
| Como.HelpIsFirstOnPath | src/como.c:898-907 | the help request is found at the first command on the selected path whose help option was given, and at none exactly when no such command exists |
| Como.UsageIfHelpAsWritten | src/como.c:898-907 | the search as written agrees with the corrected one when it shows usage or finds no help, and otherwise dereferences a help option that does not exist |
| Como.HelpSearchAgrees | src/como.c:898-907 | when every command on the selected path has a help option, the search as written never dereferences a missing one |
| Como.Finish | src/como.c:924-951 | finishing reports a parse error only with errors; a missing error exactly as the check reports it, at a command the check reaches that lacks something; help only after a clean parse and a passing check, at the first command on the selected path whose help option was given (the corrected search `Como.UsageIfHelp`, first finding below), exiting as its configuration says; otherwise success with no help request |
| Como.FinishShowsFirstHelp | src/como.c:898-907 | the command whose usage a finished help request shows is the first command of the selected path whose help option was given |
| Como.Conclude | src/como.c:942-950 | after a clean parse the missing check comes first and counts one error when it fails; otherwise the help request decides between help and success |
| Como.LevelFailsKeepsErrors | src/como.c:1068-1078 | raising the error counter does not change what the check found |
| Como.Printed | src/como.c:937-949 | every failure and every help request prints and nothing else does; the text is the usage of the command at fault or asked about, opened by its header and closed by its footer |
| Como.PrintfNoArgs | src/como.c:1189 | a string used as a printf format with no arguments comes out unchanged exactly when it holds no '%'; "%%" shortens it, any other conversion is undefined |
| Como.PrintedAsWritten | src/como.c:1189 | the library prints what the corrected printing prints exactly when the usage text holds no '%' |
| Como.PercentInHeaderFinding | src/como.c:1053 | with a '%' in the header of the command shown, what the library prints is not the usage text |
| Como.HelpIsNotExclusive | src/como.c:1301-1306 | the synthesised help option is optional and hidden but not mutually exclusive, so it is not required and does not excuse missing options |
| Como.CmdOpt | src/como.c:979-983 | the option of a command by name, or the default option when no name is given; nothing exactly when no option has the name |
| Como.CmdValue | src/como.c:985-991 | the value array of the first option answering to the name (no name: the first default option) |
| Como.CmdGiven | src/como.c:993-1001 | the option is returned exactly when it was given |
| Como.ComoOpt | src/como.c:954-958 | the plain query asks the root command |
| Como.ComoValue | src/como.c:960-966 | the plain value query asks the root: the value array of the root's first option answering to the name |
| Como.ComoGiven | src/como.c:968-976 | the plain given query asks the root command |
| Como.ComoGivenSubcmd | src/como.c:1015-1018 | the root's given sub-command is one of its children and was given; nothing exactly when no child was given |
| Como.ExternalAfterFirstTerminator | src/como.c:610-615 | after finishing, the external tokens are unchanged or are exactly the tokens after the first terminator, and a finish that succeeds or shows help always has them |
| Como.NoTerminatorKeepsExternal | src/como.c:1032-1035 | without a terminator in the input, finishing leaves the external tokens read by the accessor `Como.External` as they were |
| Como.CmdSubcmd | src/como.c:1004-1012 | the sub-command of a command by name is the first of its own children with that name; nothing exactly when no child has it |
| Como.ChildNamed | src/como.c:1004-1012 | the first listed command with the name, and nothing exactly when none has it |
| Como.CmdSubcmdAsWritten | src/como.c:1004-1012 | whatever the lookup as written finds has the name |
| Como.Scan | src/como.c:1006-1010 | the scan as written reads past the filled slots only when there are fewer children than registered commands |
| Como.SubcmdLookupAgrees | src/como.c:1004-1012 | the lookup as written finds the same child as the corrected one, and reads past the filled slots exactly when the corrected one finds none |
| Como.ScanAgrees | src/como.c:1004-1012 | the same agreement from any slot on |
| Como.ComoMaincmd | src/como.h:255-259 | initialisation then the root's specification: the root alone, named, with the default configuration and the help option before the rows |
| Como.ComoCommand | src/como.h:233-238 | initialisation, root specification and finishing: help, a missing error or a parse error can only concern the root, and help exits |
| Scenarios.SimpleParses | examples/como_simple.c:10-13 | `-f example -d` finishes successfully with the file value and the debug switch bound |
| Scenarios.SimpleQueries | examples/como_simple.c:10-13 | after that run the file option has value `example`, debug is given and help is not |
| Scenarios.SimpleHelpStillMissing | src/como.c:924-951 | `-h` alone fails the missing check on `-f` instead of showing help |
| Scenarios.TerminatorRun | src/como.c:610-615 | `-f example -- -d` finishes successfully with the cursor just past the terminator |
| Scenarios.TerminatorQueries | src/como.c:1032-1035 | after that run the external tokens are `-d` and the debug switch was not given |
| Scenarios.TolerantNeverEnds | src/como.c:636-651 | with the invalid-option check off and a default option, an unknown option is appended to the default option without advancing, so the loop never ends |
| Scenarios.StrayWordBlamesSubcmd | src/como.c:717-721 | a stray word at a root without a default option raises one error and scanning continues into the sub-command named next, so the run fails with that error |
| Scenarios.NoHelpFinding | src/como.c:898-907 | with a sub-command specified after automatic help was turned off, the help search as written dereferences the sub-command's missing help option |
| Scenarios.NoHelpRun | src/como.c:924-951 | the corrected finishing of that run succeeds |
| Scenarios.PositionalRest | src/como.c:724-730 | on a root with a default option, each of the words `a b c` is appended to it and the frame ends after the last |
| Scenarios.PositionalRun | src/como.c:924-951 | `a b c` on that root finishes successfully |
| Scenarios.PositionalValues | src/como.c:960-966 | after that run the default option's values are exactly `a`, `b`, `c`, in order |
| Scenarios.TreeRegistered | test/como_subcmd.c:46-70 | registering the root and its sub-commands `add`, `rm` and `commit` builds the three-child table, each child with the root's configuration and its own help option |
| Scenarios.TreeRun | src/como.c:924-951 | `add -fo -f example` on that table selects `add`, binds its options in its own frame and finishes successfully |
| Scenarios.TreeQueries | src/como.c:979-1027 | after that run `add` is the given sub-command, its `force` switch is given and its `file` value is `example` |
| Scenarios.SubcmdLookupFinding | src/como.c:1004-1012 | on a root without sub-commands, looking up an unknown child reads a slot that does not exist |

## Left out

- Printing, `quit`, `exit` and the exit status are not modelled. Finishing returns an outcome. `Como.Printed` gives the usage text as built, and `Como.PrintedAsWritten` what printf makes of it (third finding below).
- The text of error messages (`como_error`) is not modelled. Only the error count and the origin command are.
- `como_display_values` is output for tests and is not modelled.
- Teardown (`como_end`, `como_cmd_end`) only frees memory and is not modelled.
- `valuecnt` is not modelled. It always equals the length of the value array it counts.
- The unknown-option fallback never advances the cursor, so `parse_opts` loops forever when invalid options are tolerated and a default option exists. It is modelled as the `Stuck` step and the `Diverges` and `NeverEnds` outcomes.
- Conditions that reach `como_fatal`, which only prints, are preconditions: the parent exists, at most 127 commands, at most 128 children per command.
- Strings are sequences of characters, so lengths, and with them the id column width, are counted in characters. The library's printf counts bytes, so an id with multi-byte characters is padded differently: `-é` in a 12-wide column gets 9 spaces from the library and 10 in the model.
- The 128-entry command list is also a precondition. The byte buffers for the column format and the error prefix, and the NUL termination of strings, are not modelled.
- Registry.SpecCommand: the parse-time preconditions are not established by registration. They are that every sub-command marker names a registered command, and that no option takes one value while also accepting none without many. `Entities.ReadyTable` states them and scenarios prove them for their tables.
- Como.ComoCommand: requires that the table it builds meets `Entities.ReadyTable`.
- Usage.CmdUsage: the contract states only the header and footer framing. The order of the parts, the labels and the copyright line are stated by `Usage.UsageLayout`; the synopsis and documentation blocks by the lemmas about `Synopsis`, `OptDoc` and `LineLayout`.
- Tokenizer.ParseOpts: states one frame; the whole parse across descents is stated by `Tokenizer.SetupAndParse`.
- Tokenizer.SetupAndParse: the error origin is stated only to be a registered command, not to be the frame on the selected path where the errors were counted.
- The `como_complete` macro (src/como.h:244-249) expands exactly as `como_command` does, and is covered by `Como.ComoCommand`.

## Findings

| source | as written | input that shows it | evidently intended | confidence | as-written member | corrected member |
|---|---|---|---|---|---|---|
| src/como.c:898-907 | the help search asks for the "help" option of every command on the selected path and dereferences the lookup result without checking it | root `p` with sub-command marker `c`; `como_conf_autohelp(false)` called before `c` is specified; argument vector `c` | a command without a help option counts as not asking for help | high; not executed | Como.UsageIfHelpAsWritten (shown by Scenarios.NoHelpFinding) | Como.UsageIfHelp (proved by Como.HelpIsFirstOnPath) |
| src/como.c:1004-1012 | the sub-command lookup bounds its scan by the number of registered commands instead of the number of children, so a name that is not a child makes it read slots past the filled ones: a NULL array when the command has no children, otherwise one of the zero-filled slots of the 128-slot array (`mc_xmalloc` clears what it allocates), so the lookup dereferences NULL either way | the `como_simple` root with no sub-commands, looking up `x` | scan only the filled slots and return NULL when no child has the name | high; not executed | Como.CmdSubcmdAsWritten (shown by Scenarios.SubcmdLookupFinding) | Como.CmdSubcmd (proved by Como.SubcmdLookupAgrees) |
| src/como.c:1189 | the usage text is passed to `fprintf` as the format string, so a '%' in a header, footer, name, author, year or documentation string is read as a conversion: "%%" prints one '%' and any other conversion reads an argument that was never passed | `como_conf_header("Use 100% of it\n")` followed by any run that shows usage | write the text verbatim, with `fputs` or a "%s" format | high; not executed | Como.PrintedAsWritten (shown by Como.PercentInHeaderFinding) | Como.Printed |
