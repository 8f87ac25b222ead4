# NuttShell scripts and other NuttX applications, modelled in Dafny

A model of the parts of the NuttX application repository that carry the most logic: the
NuttShell (NSH) parser and script runner, its tokeniser, expansion and variables, the `dd`
command, the bitmap converter, and the Modbus handler table; with proofs about all of their
runs and inputs.

`dafny verify dfyconfig.toml` checks the whole project.

## How it is built

NSH builds no syntax tree. `if`, `then`, `else` and `fi` move one fixed-size stack, `while`,
`until`, `do` and `done` another; a command runs if the tops of the two stacks say so; and
`done` loops by seeking the script file back to a saved byte offset. The central theorem says
what this computes for every program with nested conditionals and loops, and for exactly which
programs that is their ordinary meaning. It is proved in layers, each with its own partner:

- `ParserState`: what one command does to the parser, as functions on values.
  `ParserSafety`: what every run of any commands keeps.
- `FlatMachine`, `Structured`, `StructuredTheorems`: a script as a flat list of commands, the
  same script as a structured program with a big-step meaning (`Exec`) and with what NSH makes of
  it (`Acts`), and the simulation between the flat and the structured, in both directions of
  termination. `NestedLoops`: for which programs the two big-step functions agree. `Departures`:
  other scripts that are not run as they are meant.
- `LineSplit`, `Script`, `LoopOffsets`, `BlankCommands`, `ScriptLayout`, `ScriptRuns`,
  `ShellWords`, `PrintedScripts`: the script as a file of bytes; reading lines, splitting them,
  saving and seeking to offsets, blank lines and comments, keywords and other words; and the proof
  that running the file is running the list of commands, hence the program.
- `NshParser`: the parser as the code has it, a class with two arrays, flags and a line buffer
  that it cuts in place. Each method is proved against its function on values.
- `Quoting`, `Expansion`, `Arguments`, `CommandLine`: back-slash quoting, `$name` expansion,
  tokenising and word splitting, in place on character arrays, and the argument vector.
- `Vars`, `Environment`: the variable buffer of NUL-terminated `name=value` strings, for any
  names, and when it is a finite map; `set`, `unset`, `export` over it and the process environment.
- `Dd`, `BitmapRle`, `ModbusHandlers`: the other components.

What commands do is a parameter: `World` says, for every history of commands run so far,
whether the last one fails and whether `set +e` is in force; a history records every command
with the exit status it would have seen in `$?`. So the theorems hold for all behaviours of
the commands. The environment is a map whose names have no `=`: setenv() refuses them with
`EINVAL`, as POSIX has it.

The configuration is the one with scripts, loops, if-then-else, semicolons, NSH variables and
the environment, and without background commands. Back-slash quoting (`CONFIG_NSH_QUOTE`) is
modelled in `Quoting` on its own; the other modules are without it. Stack depth, line length
and table size are arbitrary.

## Where the code departs from its documentation

The model follows the code. Each point has a theorem that says exactly when the documented or
expected behaviour holds.

- A loop directly inside a loop body (nshlib/README.txt:121-133): when the outer loop is being
  passed over, the whole inner loop still runs, condition and body, as often as its condition asks
  for, because a loop level on top of the stack hides the disabled level below it (`PassOver`).
  Exactly the programs without such loops run as they are meant (`RunsAsMeantIff`,
  `LoopKeepsToMeaningIff`). A loop inside an if of the loop body is passed over as it should be.
- `break` anywhere in a loop body (nshlib/README.txt:135-140): inside an if, `break` drops the
  if, and the `else` or `fi` that follows is an error, so that the command after `done` is not
  run unless `set +e` is in force (`LoopEndsAsMeantIff`, `BreakInIfStops`).
- A keyword that is refused while a condition is awaited is taken for a failed condition, and is
  not reported as a failure (`RefusalFailsIff`, `RefusalExample`).
- Ifs and loops need not be nested properly: each stack checks its own keywords only
  (`DepthsCount`, `CrossingIsAccepted`).
- A failing command under `set +e` does not stop the script, but drops the rest of its line
  (`LineSurvivesIffNoIgnoredFailure`).
- A `while` or `until` command with a double quote saves the offset after the last quoted string, so
  its loop does not go back to its start (`HeadSavesItsOffsetIff`, `QuotedHeadExample`).
- Loops "work from the command line" (nshlib/README.txt:121-123): outside of a script every
  `while` and `until` is an error (`NoLoopsOutsideScripts`).
- A back-quote that is not a command substitution loses text in an argument with expansions
  (`ExpansionIsSubstitution`).
- `set` does not check its name. A name with `=` is stored as a variable whose name ends at the
  `=`, next to one of that name that is already there, among the NSH variables or in the
  environment (`ApplyKeepsGoodIff`, `KeepsDisjointIff`, `EqualsSignShadows`).
- The comparison of a name with an entry has no end inside the two strings if they are the same, as
  when `unset a=b` follows `set a b` (`CompareEndsIff`, `TextOverruns`). Searches end exactly if the
  name is not the text of an entry (`SearchEndsIff`, `CommandEndsIff`).
- `export` of a name that is already in the environment, without a value, empties it
  (`ExportKeepsExpansionIff`).
- An expanded value that is empty or has white space at an end gives empty arguments
  (`SplitIs`, `SplitIsWordsIff`); values stored by `set` are trimmed, so they do not (`StoredValueSplits`).
- `dd` with `skip` on an input of more than 2^32 sectors skips again when its sector number wraps
  around (`TransferIsCopyIff`).
- Removing a Modbus handler from the middle of the table hides those behind it
  (`DispatchIsSearchIff`, `RemovalHidesHandler`).

In the same way `ScriptActs` and `FileActs` ask, through `Sound`, that no `break` that can be reached
stands in an if of its loop; `ScriptMeansProgram` and `FileMeansProgram` in addition, through
`Placed`, that no loop stands bare in a loop body. All of them ask, through `KeepsLines`, that no
command with others behind it on its line fails under `set +e`, and that the program nests no deeper
than the stacks; those on files, through `WellLaid`, that loop heads have no double quote and lines
fit the buffer.

## Model

| member | source | states |
|---|---|---|
| `ParserSafety.SafetyOnEveryRun` | nshlib/nsh_parse.c:1801-2146 | From a zeroed parser with stacks of any depth N, after every command of every run (any words, failures, `break` and resets anywhere) both indices are below N, level 0 of both stacks is NORMAL, every loop level strictly between 0 and the top is DO, and no branch marked "Shouldn't happen" is taken |
| `ParserSafety.RunKeepsInvariant` | nshlib/nsh_parse.c:2332-2558 | The invariant of the two stacks holds after each command of any run from any state that meets it |
| `ParserSafety.CommandKeepsInvariant` | nshlib/nsh_parse.c:2332-2558 | One command, whatever its words, keeps the invariant and never reports an internal error |
| `ParserSafety.LoopStageKeepsInvariant` | nshlib/nsh_parse.c:1801-1984 | The loop keywords, valid or in error, keep the invariant |
| `ParserSafety.IfStageKeepsInvariant` | nshlib/nsh_parse.c:1992-2055 | `if` and `if !`, valid or in error, keep the invariant |
| `ParserSafety.ItefStageKeepsInvariant` | nshlib/nsh_parse.c:1992-2146 | The if keywords, valid or in error, keep the invariant |
| `ParserSafety.SaveResultKeepsInvariant` | nshlib/nsh_parse.c:434-491 | Recording an exit status keeps the invariant |
| `ParserSafety.ExecuteKeepsInvariant` | nshlib/nsh_parse.c:497-769 | Running a command, `break` included, keeps the invariant |
| `ParserSafety.NoLoopsOutsideScripts` | nshlib/nsh_parse.c:1834-1844 | On every run of commands that do not come from a script, every `while` and `until` is an error and no loop is ever open |
| `ParserSafety.RefusalFailsIff` | nshlib/nsh_parse.c:434-491 | Whatever is refused, nothing is run, and the command is reported as a failure unless a condition is awaited: a loop keyword refused just after `if`, or an if keyword as the condition of a loop, is taken for a failed condition and reported as a success; a refused loop keyword drops all loops and no if, a refused if keyword all ifs and no loop |
| `ParserSafety.RefusalExample` | nshlib/nsh_parse.c:470-491 | `done` outside of loops fails, but after `if c` it is a success that selects the else part |
| `ParserSafety.DepthsCount` | nshlib/nsh_parse.c:1801-2146 | On every run in which no command is refused and there is no `break`, the depth of each stack is the number of its opening keywords less that of its closing ones, however ifs and loops are interleaved |
| `ParserSafety.CrossingIsAccepted` | nshlib/nsh_parse.c:1895-2146 | In a loop body and an if branch, whichever was opened first, `done` and `fi` are accepted in either order |
| `FlatMachine.GluedCommand` | nshlib/nsh_parse.c:2332-2414 | `then c`, `else c` and `do c` do what the keyword alone and then `c` would do |
| `FlatMachine.StepBreaks` | nshlib/nsh_parse.c:2691-2714 | `break` in a loop body disables that loop and drops the ifs opened inside it; outside of loops it does nothing |
| `FlatMachine.StepLost` | nshlib/nsh_parse.c:2076-2124 | `else` and `fi` where no if is open stop the script, with a failure, unless `set +e` is in force |
| `Structured.Simulate` | nshlib/nsh_parse.c:1801-2558 | Simulation, by nested induction on blocks and iterations: from any state in which a block is next whose `break`s are not inside ifs of their loops, loops inside loops included, the flat parser reaches the end of the block with the commands, exit statuses and outcome of what NSH makes of the block (`Acts`) and with its stacks restored; if that has not ended within the fuel, the parser is still running after as many steps |
| `Structured.Skip` | nshlib/nsh_parse.c:1724-1793 | Skip lemma: while processing is disabled, any nesting of if and loop blocks is consumed without running a command and with both stacks restored, provided no bare loop is skipped by a loop alone |
| `Structured.SkipCond` | nshlib/nsh_parse.c:1992-2146 | A skipped conditional leaves only the reading position changed |
| `Structured.SkipLoop` | nshlib/nsh_parse.c:1801-1984 | A loop skipped by an if leaves only the reading position changed and does not jump back |
| `Structured.SimulateLoop` | nshlib/nsh_parse.c:1801-1984 | One pass over while or until, also where an outer loop is being passed over: the condition, then the body and a jump to the condition, or the bare loops of the body and the command after `done`; the levels below are as they were |
| `Structured.SimulateCond` | nshlib/nsh_parse.c:1992-2146 | An if runs its condition, then exactly the branch that the condition and `!` ask for; a failing condition does not stop the script |
| `Structured.PassLoop` | nshlib/nsh_parse.c:1856-1873 | A loop whose condition asks for no pass runs its condition and the bare loops of its body, and nothing else |
| `Structured.CloseLoop` | nshlib/nsh_parse.c:1898-1959 | `done` goes back to its own loop head exactly if the pass ended normally, and past the loop after `break` |
| `Structured.LoseBranch` | nshlib/nsh_parse.c:2691-2714 | After a `break` in a branch of an if of its loop, the `else` or `fi` that ends the branch stops the script |
| `Structured.PassOver` | nshlib/nsh_parse.c:1724-1741 | While only a loop disables processing, a block is passed over except for the loops that stand bare in it: each of them runs exactly as if it stood alone, any number of passes and its own bare loops included, and the disabled level is as it was |
| `Structured.PlacedActsAsMeant` | nshlib/README.txt:121-140 | Where no loop stands directly inside a loop, what NSH makes of a block is what the block means |
| `StructuredTheorems.MeaningIsReached` | nshlib/nsh_parse.c:1801-2558 | Where no loop stands directly inside a loop, the parser halts where the meaning ends; as long as the meaning has not ended, it is still running |
| `StructuredTheorems.HaltsIffMeaningTerminates` | nshlib/README.txt:121-133 | Where no loop stands directly inside a loop, the script comes to an end if and only if its meaning terminates |
| `StructuredTheorems.ScriptMeansProgram` | nshlib/README.txt:103-140 | Where no loop stands directly inside a loop, the flat, stack-and-jump parser computes the ordinary meaning of if, while, until and break: same commands in the same order with the same `$?`, same final status and result, stopped early exactly if the meaning is, otherwise both stacks as before |
| `StructuredTheorems.ActsAreReached` | nshlib/nsh_parse.c:1801-2558 | For every program with `break`s not inside ifs of their loops: the parser halts where what NSH makes of the program ends; as long as that has not ended, it is still running |
| `StructuredTheorems.ScriptActs` | nshlib/nsh_parse.c:1801-2558 | For every such program, loops inside loops included: when the parser has halted it has run the commands that NSH makes of the program, in order and with the same `$?`, has the same final status, has stopped early exactly if that says so, and otherwise has both stacks as before; the last command reports success after `fi` and `done`, and after a single command what its status says |
| `StructuredTheorems.HaltsIffActsEnd` | nshlib/nsh_parse.c:1801-2558 | For every such program the script comes to an end if and only if what NSH makes of it does |
| `Departures.LoopEndsAsMeantIff` | nshlib/README.txt:135-140 | For every loop that is otherwise fit to run: the script ends as its meaning says, in every world and layout, if and only if no `break` stands in an if of the loop body before a `break` of the body itself |
| `Departures.BreakInIfStops` | nshlib/nsh_parse.c:2691-2714 | If the meaning of a loop at rest comes, in any pass, to a `break` inside an if of the loop, the parser stops with a failure at the `else` or `fi` that ends the branch, while the meaning goes on after `done` |
| `Departures.BreakInIfExample` | nshlib/README.txt:135-140 | `while c; do if d; then break; fi; done; x` never runs `x`, although its meaning does |
| `Departures.FiAfterBreakIff` | nshlib/nsh_parse.c:2691-2714 | Wherever the loop stands: after `break`, `fi` closes the if branch it stands in if and only if that branch was opened before the loop |
| `Departures.LineSurvivesIffNoIgnoredFailure` | nshlib/nsh_parse.c:2630-2651 | A line of any number of plain commands, wherever processing is enabled, is run as its meaning says if and only if the first command to fail is the last one or fails without `set +e` |
| `Departures.RunKeepsToActs` | nshlib/nsh_parse.c:1801-2558 | At whatever moment one looks, the commands run so far are a prefix of those that NSH makes of the program |
| `Departures.BareLoopRuns` | nshlib/nsh_parse.c:1724-1741 | A block with a loop outside of its ifs, skipped by a loop alone, comes to run that inner loop's condition as its next command |
| `Departures.BareLoopDeparts` | nshlib/nsh_parse.c:1856-1873 | Every loop with a bare loop in its body, when its condition asks for no pass, runs the inner condition although its meaning is over |
| `Departures.LoopKeepsToMeaningIff` | nshlib/README.txt:121-133 | For every script that is one loop, otherwise well placed: the parser never runs a command beyond the meaning, in any world and layout and at any moment, if and only if no loop stands bare in the body |
| `NestedLoops.RunsAsMeantIff` | nshlib/README.txt:121-133 | For every well-worded program whose `break`s are not inside ifs of their loops: the script halts as its meaning says, in every world and layout in which the meaning ends, if and only if no loop that can be run has a loop directly in its body |
| `NestedLoops.PlacedIff` | nshlib/README.txt:121-133 | The syntactic condition of the simulation is just that no loop that can be run has a loop directly in its body |
| `NestedLoops.PathEnds` | nshlib/README.txt:121-133 | For every program that does have one there are outcomes of its commands with which its meaning comes to such a loop, leaves it at once and ends after a known number of commands |
| `NestedLoops.PathOverruns` | nshlib/nsh_parse.c:1856-1873 | With these outcomes NSH stops, goes on for ever, or runs more commands than that |
| `NestedLoops.ActsCost` | nshlib/nsh_parse.c:1801-2558 | In any world, what NSH makes of a block runs at least as many commands as the shortest way through the block |
| `NestedLoops.NestedExample` | nshlib/README.txt:121-133 | `while a; do while b; do c; done; done` means to run only `a` if `a` fails, but NSH runs `a`, `b`, `c`, `b` |
| `LineSplit.LineIsCut` | nshlib/nsh_parse.c:2574-2684 | On every line, the commands handed on are exactly the stretches between semicolons outside double quotes; all of them if the quotes are balanced, all but the last and an error if not |
| `LineSplit.ScanIsCut` | nshlib/nsh_parse.c:2595-2677 | The same from the middle of a line: the two-offset scan agrees with a character by character cut |
| `LineSplit.PiecesRejoin` | nshlib/nsh_parse.c:2574-2684 | Nothing is lost: on balanced lines the commands rejoined with semicolons are the line |
| `LineSplit.OpenIffOdd` | nshlib/nsh_parse.c:2661-2676 | On a line without `#` and newline, the unmatched-quote error occurs if and only if the number of quotes is odd |
| `Script.ReadLineEndsAtNewline` | nshlib/nsh_script.c:129-130 | `fgets` returns the text up to and including the first newline, unless the file ends or the buffer is full before |
| `LoopOffsets.CommandKeepsHeads` | nshlib/nsh_parse.c:1856-1938 | After any command, every live loop level remembers the position of a loop head, and a jump goes to one |
| `LoopOffsets.CommandKeepsPositions` | nshlib/nsh_parse.c:1801-1984 | Between the command that opens a loop level and the `done` that closes it, no command changes the position the level remembers |
| `LoopOffsets.JumpGoesToClosedLevel` | nshlib/nsh_parse.c:1919-1959 | A jump is made only by a bare `done` of the innermost, enabled loop, goes to the position that this very level remembers, and closes it |
| `LoopOffsets.HeadRemembersItself` | nshlib/nsh_parse.c:1856-1873 | A loop level remembers the offset of the command that opened it |
| `LoopOffsets.FailureDoesNotJump` | nshlib/nsh_parse.c:1919-1941 | A command that fails never jumps |
| `LoopOffsets.CommandRenames` | nshlib/nsh_parse.c:2332-2558 | A command does the same whether positions are byte offsets or command numbers |
| `LoopOffsets.OnlyHeadsOpen` | nshlib/nsh_parse.c:1801-1984 | Only `while` and `until` open a loop level, and only one |
| `LoopOffsets.LevelHasOpener` | nshlib/nsh_parse.c:1856-1873 | After any number of commands of any script, well formed or not, every open loop level remembers the position of the very command that opened it |
| `LoopOffsets.JumpReturnsToOpener` | nshlib/nsh_parse.c:1919-1959 | In any run of any script, a `done` that jumps goes back to the very loop head that opened the level it closes |
| `BlankCommands.CompactNextLine` | nshlib/nsh_parse.c:2595-2677 | Leaving out empty commands does not change which command comes first on the next line |
| `BlankCommands.RunsTogether` | nshlib/nsh_parse.c:2402-2414 | A script with blank lines, comments and empty commands runs as the script without them: any number of steps of one is some number of the other, and the results of their last commands differ only after a line without words, which reports success |
| `BlankCommands.HaltTogether` | nshlib/nsh_parse.c:2402-2414 | If the script without empty commands comes to its end, so does the script with them |
| `ScriptLayout.ScanPiece` | nshlib/nsh_parse.c:2595-2677 | A command without unquoted terminators is handed on as one piece, with the position after its last quoted string as its offset |
| `ScriptLayout.OffsetIsStartIffNoQuote` | nshlib/nsh_parse.c:2603 | The offset saved for a command is where the command begins if and only if the command has no double quote |
| `ScriptLayout.LineIsRead` | nshlib/nsh_script.c:118-130 | From the start of any command of a well laid out file, one read returns exactly the rest of its line |
| `ScriptLayout.QuotedHeadExample` | nshlib/nsh_parse.c:2603 | For `while test "a"` the offset saved is that of its newline |
| `ScriptRuns.HeadSavesItsOffsetIff` | nshlib/nsh_parse.c:1856-1873 | Wherever on its line reading started and in any parser state, a loop head that opens a level saves its own byte offset, to which its `done` jumps, if and only if its text has no double quote |
| `ScriptRuns.CommandInStep` | nshlib/nsh_parse.c:2332-2558 | One command read from the file and one taken from the command list keep the two runs in step, offsets translated |
| `ScriptRuns.LineInStep` | nshlib/nsh_parse.c:2574-2684 | One line of the file is one or more commands of the list |
| `ScriptRuns.TurnInStep` | nshlib/nsh_script.c:106-142 | One turn of the script loop is one or more commands of the list |
| `ScriptRuns.TurnsInStep` | nshlib/nsh_script.c:106-160 | Any number of turns keeps file and command list in step, the result of the last command included, and both end together |
| `ScriptRuns.LevelsRememberLoopHeads` | nshlib/nsh_parse.c:1856-1873 | On any well laid out script, control flow well formed or not, after any number of lines every open loop level holds the byte offset of the very command that opened it |
| `ScriptRuns.JumpReadsLoopHead` | nshlib/nsh_parse.c:1919-1941 | After a line that jumped, the next text read begins with the very while or until that opened the level which `done` closed |
| `ScriptRuns.FileMeansProgram` | nshlib/nsh_script.c:59-161 | End to end, bytes to meaning: where no loop stands directly inside a loop, reading a script file by lines, with blank lines, comments and empty commands, splitting, jumping by `fseek`, runs exactly the commands that the structured meaning runs, with the same statuses and final state; the result of the script is that of its last line: failure if it was stopped or has no line, success after an empty line, `fi` or `done`, else the status of the last command |
| `ScriptRuns.FileEndsIffMeaningTerminates` | nshlib/nsh_script.c:106-142 | Where no loop stands directly inside a loop, the script file is read to its end if and only if the meaning of the program terminates |
| `ScriptRuns.FileActs` | nshlib/nsh_script.c:59-161 | End to end, from bytes: a script file that holds the text of any program with `break`s not inside ifs of their loops runs exactly the commands that NSH makes of the program, with the same statuses, final state and result |
| `ScriptRuns.FileEndsIffActsEnd` | nshlib/nsh_script.c:106-142 | The script file is read to its end if and only if what NSH makes of the program ends |
| `ShellWords.SpelledWordsAreGoodSource` | nshlib/nsh_parse.c:1454-1717 | Words, bare or in double quotes, set off by any spaces and tabs or by a redirection or closing quote before them, with blanks around them and perhaps a comment, are read back as those words anywhere in a script, so the file theorems apply to them |
| `ShellWords.TokensAreTexts` | nshlib/nsh_parse.c:1816-2146 | Writing a token down undoes telling it apart, for every word; the other way round holds exactly for tokens that are not words spelled like a keyword |
| `PrintedScripts.PrintedIsGood` | nshlib/nsh_parse.c:1454-2146 | A command printed with its keywords and words, separated by spaces, is read back anywhere in a script |
| `PrintedScripts.PrintedProgramActs` | nshlib/nsh_script.c:59-161 | Bytes to behaviour, keywords included: the file with the printed text of any readable program, in any arrangement on lines, runs exactly what NSH makes of the program, and has its result |
| `PrintedScripts.UntilExample` | nshlib/README.txt:121-133 | The file with the text `until c;do x;done` runs `c`, `x`, `c`, `x`, `c` if `c` fails twice, and succeeds |
| `NshParser.Parser.constructor` | nshlib/nsh.h:712-752 | A new parser is the zeroed one |
| `NshParser.Parser.LoopIsEnabled` | nshlib/nsh_parse.c:1724-1741 | Agrees with the value model on whether the loop stack enables processing |
| `NshParser.Parser.ItefIsEnabled` | nshlib/nsh_parse.c:1751-1775 | Agrees with the value model on whether the if stack enables processing |
| `NshParser.Parser.IsEnabled` | nshlib/nsh_parse.c:1785-1793 | Agrees with the value model on whether a command is to be run |
| `NshParser.Parser.PushLoop` | nshlib/nsh_parse.c:1856-1873 | In place, opens the level that the value model opens |
| `NshParser.Parser.PopLoop` | nshlib/nsh_parse.c:1919-1959 | In place, seeks and closes the level as the value model does |
| `NshParser.Parser.LoopKeyword` | nshlib/nsh_parse.c:1801-1984 | In place, refines the loop stage: same state, same remaining words, same error; never the internal error |
| `NshParser.Parser.ItefKeyword` | nshlib/nsh_parse.c:1992-2146 | In place, refines the if stage; never the internal error |
| `NshParser.Parser.SaveCommandResult` | nshlib/nsh_parse.c:434-491 | In place, refines the recording of a result |
| `NshParser.Parser.CmdBreak` | nshlib/nsh_parse.c:2691-2714 | In place, refines `break` and keeps the invariant |
| `NshParser.Parser.ExecuteCommand` | nshlib/nsh_parse.c:497-769 | Refines running a command, with the history of commands and `$?` |
| `NshParser.Parser.ParseOne` | nshlib/nsh_parse.c:2332-2558 | Refines one command, and keeps the invariant |
| `NshParser.Parser.FindSeparator` | nshlib/nsh_parse.c:2612-2613 | In a NUL-terminated buffer finds the first of the four separators or the end |
| `NshParser.Parser.FindQuote` | nshlib/nsh_parse.c:2661-2676 | In a NUL-terminated buffer finds the closing quote or the end |
| `NshParser.Parser.Parse` | nshlib/nsh_parse.c:2574-2684 | The in-place loop over the line buffer, which it cuts with NULs, runs the commands of the cut of the original line |
| `NshParser.Parser.Fgets` | nshlib/nsh_script.c:129-130 | Fills the buffer with the next line, NUL-terminated |
| `NshParser.Parser.RunTurn` | nshlib/nsh_script.c:106-142 | One turn of the script loop, in place, refines the value model |
| `NshParser.Parser.RunScript` | nshlib/nsh_script.c:59-161 | The script loop, in place, refines the value model to which the file theorems apply |
| `NshParser.Parser.IfKeyword` | nshlib/nsh_parse.c:1999-2055 | In place, opens the if level that the value model opens, or reports its error |
| `Quoting.QuotedIsOddParity` | nshlib/nsh_parse.c:1155-1184 | A character is quoted if and only if an odd number of back-slashes comes just before it |
| `Quoting.StrChr` | nshlib/nsh_parse.c:992-1016 | Finds the first unquoted occurrence, or none if there is none; a back-slash is never found |
| `Quoting.FindDelimiter` | nshlib/nsh_parse.c:1639-1674 | Stops at the first unquoted character of the terminator set, or at the end |
| `Quoting.FindSpecial` | nshlib/nsh_parse.c:1150-1184 | Stops at the first unquoted special character: every special one before it is quoted |
| `Quoting.UnescapeKeeps` | nshlib/nsh_parse.c:1077-1123 | Dequoting keeps exactly the characters that do not quote another |
| `Quoting.UnescapeUndoesEscape` | nshlib/nsh_parse.c:1077-1123 | Round trip: dequoting undoes back-slashing any set of characters that includes back-slash |
| `Quoting.EscapeProtects` | nshlib/nsh_parse.c:992-1123 | None of the searches stops at a back-slashed character |
| `Quoting.Dequote` | nshlib/nsh_parse.c:1077-1123 | In place, leaves the C string with its unquoted back-slashes removed |
| `Quoting.OccursIff` | nshlib/nsh_parse.c:992-1016 | A character can be found if and only if an even number of back-slashes comes just before it and it is not one |
| `Expansion.PartsAreTemplate` | nshlib/nsh_parse.c:1131-1375 | The literals and variable references found in a template, written out again, are the template |
| `Expansion.ExpansionIsSubstitution` | nshlib/nsh_parse.c:1131-1375 | The result is the literals and values in template order, values not expanded again, if and only if nothing is expanded or no literal has a back-quote |
| `Expansion.TicksShorten` | nshlib/nsh_parse.c:1363-1373 | A back-quote in a template with expansions always loses text |
| `Expansion.NoDollarUnchanged` | nshlib/nsh_parse.c:1187-1220 | A template without `$` is its own expansion |
| `Expansion.ArgExpand` | nshlib/nsh_parse.c:1131-1375 | The loop that cuts the template in place and concatenates computes that expansion and fails exactly on an unclosed brace; the flag says whether the first reference was complete, also on failure |
| `Expansion.TemplateIff` | nshlib/nsh_parse.c:1131-1375 | The literals and references found in a template are the one way of writing it so that literals have no `$`, braced names no `}`, and a bare name comes last |
| `Expansion.UnmatchedIff` | nshlib/nsh_parse.c:1301-1314 | A template is refused if and only if it cannot be written so |
| `Arguments.Echo` | nshlib/nsh_envcmds.c:280-310 | Prints the operands separated by single spaces, with the newline unless `-n` |
| `Arguments.EchoRoundTrip` | nshlib/nsh_envcmds.c:280-310 | What `echo` prints is tokenised back to the operands it printed |
| `Arguments.SplitArgument` | nshlib/nsh_parse.c:2441-2486 | The in-place splitting loop of an expanded argument computes the split function |
| `Arguments.SplitIsWordsIff` | nshlib/nsh_parse.c:2441-2486 | An expanded value becomes exactly its words, none empty, if and only if it is not empty and has no separator at either end |
| `Arguments.TrailingSeparatorLeavesEmpty` | nshlib/nsh_parse.c:2458-2484 | A trailing separator always leaves an empty argument |
| `Arguments.GetArgument` | nshlib/nsh_parse.c:1454-1717 | Finds the text of the next argument and ends it in place, strictly advances, and leaves the rest of the command intact |
| `Arguments.GetArguments` | nshlib/nsh_parse.c:1454-1717 | Repeated calls find the texts of all arguments of the command, in order |
| `Arguments.ReadSpelled` | nshlib/nsh_parse.c:1454-1717 | Arguments written bare or quoted, with any separators between them, or none after a redirection or a closing quote, then perhaps a comment, are tokenised to those arguments |
| `Arguments.ReadAll` | nshlib/nsh_envcmds.c:280-310 | Arguments separated by single spaces are tokenised to those arguments |
| `Arguments.RedirectionIsRead` | nshlib/nsh_parse.c:1485-1501 | A `>` or `>>`, whatever follows it directly, is an argument of its own, and what follows is read as if it stood alone |
| `Arguments.SplitIs` | nshlib/nsh_parse.c:2441-2486 | Any expanded value is split into its words, with an empty argument before them if it is empty or begins with a separator, and one behind them if it ends in one |
| `Arguments.EchoMeans` | nshlib/nsh_envcmds.c:280-310 | A first argument that begins with `-n` is not printed and suppresses the newline, any other does not; one character stands between operands |
| `CommandLine.ExpandArgument` | nshlib/nsh_parse.c:1698-1704 | Expands an argument, and splits it if it is not quoted and a variable was expanded |
| `CommandLine.CollectArguments` | nshlib/nsh_parse.c:2362-2486 | In place, collects the argument vector that SpelledArgv speaks of: the name of the command, expanded and never split, then each argument cut out, expanded, and split if it is to be |
| `CommandLine.BareIsWordsIff` | nshlib/nsh_parse.c:2441-2486 | An unquoted argument that refers to variables becomes the words of its expansion if and only if the expansion is not empty and has no separator at either end |
| `CommandLine.NoDollarIsVerbatim` | nshlib/nsh_parse.c:1454-1717 | A command without `$` has exactly the argument vector it is written with |
| `CommandLine.ExpandName` | nshlib/nsh_parse.c:2362 | The name of a command is expanded like a quoted argument |
| `CommandLine.SpelledArgv` | nshlib/nsh_parse.c:2332-2486 | For every command spelled bare and in quotes, with redirections and references anywhere: its name, every quoted argument and every argument without references is exactly one element, the substitution of the values in its text, and every bare argument with references is the split of its substitution |
| `CommandLine.RefusedIsEmpty` | nshlib/nsh_parse.c:1301-1314 | An argument that no literals and references give becomes the empty string |
| `Vars.EncodeInjective` | nshlib/nsh_vars.c:101-121 | A buffer is cut into `name=value` entries in one way only |
| `Vars.VisitsUntil` | nshlib/nsh_vars.c:386-418 | A callback sees the entries once each, in order, up to the first for which it does not return 0, whose result is returned, or all of them |
| `Vars.VarStore.constructor` | nshlib/nsh_vars.c:238-301 | The empty store has no buffer |
| `Vars.VarStore.BufferSize` | nshlib/nsh_vars.c:238-301 | The buffer size is the sum over entries of name, value and two bytes |
| `Vars.VarStore.RemoveVar` | nshlib/nsh_vars.c:139-178 | Moving bytes down removes that entry and no other |
| `Vars.VarStore.ForEach` | nshlib/nsh_vars.c:386-418 | Visits entries in order and stops at the first callback result that is not 0 |
| `Vars.LookupIsLastValue` | nshlib/nsh_vars.c:207-364 | After any harmless sequence of set and unset, out of memory included, in which therefore every search ends, a name has the last value set and not since taken back, and names are distinct |
| `Vars.ApplyKeepsGoodIff` | nshlib/nsh_vars.c:238-364 | For any name at all: the search of a change ends and names stay distinct if and only if the name is not the text of an entry, and the change is an unset, or memory runs out, or the name has no `=`, or the part before `=` is not set, or its entry is the one the name matches |
| `Vars.ApplyLookup` | nshlib/nsh_vars.c:238-364 | A harmless change affects its own name only; a set that runs out of memory leaves the name unset |
| `Vars.StoredPair` | nshlib/nsh_vars.c:297-299 | What is stored for a name with `=` is the entry of the part before the first `=` |
| `Vars.MatchesName` | nshlib/nsh_vars.c:59-75 | An entry matches only names whose part before the first `=` is its own name |
| `Vars.EqualsSignDoublesName` | nshlib/nsh_vars.c:238-301 | `set a x` and then `set a=b c` leaves two entries named `a` |
| `Vars.GoodNameEnds` | nshlib/nsh_vars.c:59-121 | Every search for a name without `=` ends |
| `Vars.VarStore.CmpName` | nshlib/nsh_vars.c:59-75 | Ends inside both strings if and only if they differ; then it is true if and only if the name followed by `=` is a prefix of the entry at the position |
| `Vars.VarStore.FindVar` | nshlib/nsh_vars.c:101-121 | Says whether the search ends; if so, finds the start of the first entry in the byte buffer that matches, or nothing if none does |
| `Vars.VarStore.GetVar` | nshlib/nsh_vars.c:207-231 | If the search ends, returns what the list of entries has for the name |
| `Vars.VarStore.SetVar` | nshlib/nsh_vars.c:238-301 | If the search ends: on bytes, remove, grow, append; on entries, set, or unset if memory runs out |
| `Vars.VarStore.UnsetVar` | nshlib/nsh_vars.c:309-364 | If the search ends: on bytes, remove, shrink or free; on entries, unset, also when shrinking fails |
| `Vars.CompareEndsIff` | nshlib/nsh_vars.c:59-75 | The comparison of a name with an entry ends inside both strings if and only if the name is not the whole text of the entry |
| `Vars.SearchIs` | nshlib/nsh_vars.c:101-121 | Every comparison of a search ends inside if and only if no entry up to the first that matches is the text of the name; then the search finds that one |
| `Vars.SearchEndsIff` | nshlib/nsh_vars.c:101-121 | With distinct names: a search ends if and only if the name has no `=`, or the part before its first `=` is not set to the part after it |
| `Vars.MatchesIff` | nshlib/nsh_vars.c:59-75 | A name with `=` matches exactly the entry of its part before the first `=` whose value goes on with the rest of the name and another `=` |
| `Environment.TrimIsUnique` | nshlib/nsh_fsutils.c:397-418 | Any way of removing white space from both ends until none is left gives the same string |
| `Environment.TrimSpaces` | nshlib/nsh_fsutils.c:397-418 | In place, leaves the trimmed string |
| `Environment.OptionsSetFlags` | nshlib/nsh_envcmds.c:376-422 | Each letter e or x at the front sets its flag to the sign, also if the scan fails; it succeeds if and only if nothing or a space comes after them |
| `Environment.OptionsKeepVariables` | nshlib/nsh_envcmds.c:376-422 | Options change nothing but the two flags |
| `Environment.Session.constructor` | nshlib/nsh_console.c:476 | A new session has no variables and the given environment, +x in force and +e not |
| `Environment.Session.EnvExpand` | nshlib/nsh_parse.c:1024-1069 | Says whether the search ends; if so, looks up exit status, NSH variable, environment, nothing, in this order |
| `Environment.Session.SetOptions` | nshlib/nsh_envcmds.c:376-422 | In place, refines the options function |
| `Environment.Session.CmdSet` | nshlib/nsh_envcmds.c:344-481 | In place on both stores, refines `set` with options and assignment, and says whether its search ends |
| `Environment.Session.CmdUnset` | nshlib/nsh_envcmds.c:489-520 | In place on both stores, refines `unset`, and says whether its search ends |
| `Environment.Session.CmdExport` | nshlib/nsh_envcmds.c:528-581 | In place on both stores, refines `export`, and says whether its searches end |
| `Environment.KeepsDisjointIff` | nshlib/nsh_envcmds.c:344-581 | For any names at all: the searches of a `set`, `unset` or `export`, whatever fails in it, end, and names stay distinct and out of one of the two stores, if and only if it does not search for the text of an NSH variable, and is not a `set` of a name with `=` whose part before `=` is an environment variable or another NSH variable |
| `Environment.EqualsSignShadows` | nshlib/nsh_envcmds.c:446-453 | With `a` in the environment, `set a=b c` puts `a` into both stores, and `$a` expands to `b=c` |
| `Environment.RunKeepsDisjointIff` | nshlib/nsh_envcmds.c:344-581 | All searches of a run end and the stores stay disjoint all through it if and only if every command of the run is innocent in that sense |
| `Environment.LookupOrderIsImmaterial` | nshlib/nsh_parse.c:1024-1069 | After any innocent run, the search for the name of an environment variable ends, and the name expands to its own value although NSH variables are looked up first |
| `Environment.SetExpands` | nshlib/nsh_envcmds.c:425-477 | An innocent `set` succeeds if and only if the environment, where the name is, or else memory is granted; then the part of the name before `=` expands to the rest and the trimmed value, every other name as before; a failed one leaves what the name matched unset and the rest as it was |
| `Environment.UnsetExpands` | nshlib/nsh_envcmds.c:489-520 | After an innocent `unset`, whatever fails in it, no NSH variable has the name and it can be searched for again; it is out of the environment unless unsetenv fails; it succeeds if and only if unsetenv does and the buffer could shrink or did not have to; names that differ before any `=` expand as before |
| `Environment.ExportKeepsExpansionIff` | nshlib/nsh_envcmds.c:528-581 | An innocent export without a value keeps the expansion if and only if the name is an NSH variable, expands to nothing anyway, or the environment refuses |
| `Environment.ExportExpands` | nshlib/nsh_envcmds.c:528-581 | After an innocent `export` the environment accepts, the name is there and no longer an NSH variable, and expands to the value given, or else to what it did as an NSH variable, or to nothing; exactly when it succeeds; a refused one changes nothing; other names as before |
| `Environment.StoredValueSplits` | nshlib/nsh_envcmds.c:434-475 | A stored value, expanded unquoted, gives exactly its words if and only if it is not empty and does not begin with a separator; for a name without `=` that is if and only if the value is not blank |
| `Environment.CommandEndsIff` | nshlib/nsh_envcmds.c:344-581 | The searches of a `set`, `unset` or `export` end if and only if it has a value to export or its name is not the text of an NSH variable |
| `Environment.TextOverruns` | nshlib/nsh_vars.c:59-75 | After `set a b` the searches of `unset a=b`, `set a=b c`, `export a=b` and `$a=b` run past the end of their strings |
| `Environment.StatusIsLastResult` | nshlib/nsh_parse.c:1030-1041 | `$?` is 1 exactly if the last command failed, else 0 |
| `Environment.SetCommandMeans` | nshlib/nsh_envcmds.c:344-481 | `set` with options, with a name and a value, or with both, on any arguments: the flags are set first, and only if that succeeds the variable; nothing else changes |
| `Dd.Transfer.Run` | nshlib/nsh_ddcmd.c:323-364 | Whatever sizes the system grants to reads and writes: it succeeds if and only if none that it makes fails; then the output is exactly the sectors that the loop is to transfer, 32-bit counter included, and in any case a prefix of them |
| `Dd.Transfer.DdRead` | nshlib/nsh_ddcmd.c:140-163 | Succeeds if and only if no read fails; fills the sector as far as the input goes, and signals the end exactly if nothing was left |
| `Dd.Transfer.DdWrite` | nshlib/nsh_ddcmd.c:109-134 | Succeeds if and only if no write fails; writes the whole sector, or a prefix of it on failure |
| `Dd.Transfer.PadBuffer` | nshlib/nsh_ddcmd.c:338-343 | Pads the sector with zeros |
| `Dd.Transfer.CopySector` | nshlib/nsh_ddcmd.c:334-363 | One sector is written or skipped; what is written and what is still due is conserved |
| `Dd.TransferIsCopyIff` | nshlib/nsh_ddcmd.c:323-364 | For every input size, sector size, skip and count: the loop copies the right sectors of every input of that size if and only if skip is 0, or the input has at most 2^32 sectors, or skip and count together are at most 2^32 |
| `Dd.TransferredIsCopied` | nshlib/nsh_ddcmd.c:345-362 | As long as the 32-bit sector number does not wrap around, or nothing is skipped, the loop transfers exactly the sectors to copy |
| `Dd.WrapIsLost` | nshlib/nsh_ddcmd.c:345-362 | With a skip, the sector that gets number 0 again is never transferred |
| `Dd.CopiedIs` | nshlib/nsh_ddcmd.c:323-364 | What is copied is a slice of the zero-padded input: `skip` sectors dropped, at most `count` taken |
| `Dd.PaddedIs` | nshlib/nsh_ddcmd.c:338-343 | Padding keeps the data, adds only zeros and fewer than a sector, and makes whole sectors |
| `BitmapRle.QuantizeIsFirstClosest` | tools/bitmap_converter.py:48-57 | The index is the least one at the least squared distance |
| `BitmapRle.EncodeRow` | tools/bitmap_converter.py:59-79 | The loop computes the encoding that takes the longest run of at most 255 each time |
| `BitmapRle.GreedyEncodes` | tools/bitmap_converter.py:59-79 | Round trip: the entries expand to the quantized row, with counts in 1..255 |
| `BitmapRle.GreedyIsShortest` | tools/bitmap_converter.py:59-79 | No encoding of the row with counts in 1..255 has fewer entries |
| `BitmapRle.LosslessRow` | tools/bitmap_converter.py:48-79 | A row whose colours are in the palette is recovered exactly |
| `BitmapRle.SquareOfSum` | tools/bitmap_converter.py:54-55 | The distance is made of squares: even, and with the law of the square of a sum |
| `ModbusHandlers.RunKeepsGood` | modbus/mb.c:243-290 | After any registrations and removals a slot has code 0 if and only if its handler is null, and no code exceeds 127 |
| `ModbusHandlers.DispatchIsSound` | modbus/mb.c:396-411 | Whatever is dispatched is a non-null handler registered for that very code |
| `ModbusHandlers.IllegalCodesFindNothing` | modbus/mb.c:396-411 | After any run, code 0 and codes from 128 on find no handler |
| `ModbusHandlers.DispatchIsSearchIff` | modbus/mb.c:396-411 | Dispatch finds what a full search finds if and only if no empty slot comes before the first slot with the code |
| `ModbusHandlers.RunKeepsPacked` | modbus/mb.c:243-290 | If every removal clears the last occupied slot, the table stays packed |
| `ModbusHandlers.DispatchIsSearchOnPackedRuns` | modbus/mb.c:243-411 | Then, after any such run, dispatch is a full search |
| `ModbusHandlers.RemovalHidesHandler` | modbus/mb.c:265-280 | A concrete run that hides a registered handler: register two, remove the first |
| `ModbusHandlers.HandlerTable.constructor` | modbus/mb.c:101-133 | The table starts with the configured handlers, then empty slots |
| `ModbusHandlers.HandlerTable.RegisterCB` | modbus/mb.c:243-290 | In place, refines registration and removal, with the status returned |
| `ModbusHandlers.HandlerTable.FindHandler` | modbus/mb.c:396-411 | The scan refines dispatch |
| `ModbusHandlers.RegisterMeans` | modbus/mb.c:243-290 | Exactly when each status is returned; a refused request changes nothing, an accepted one at most one slot, and how |
| `ModbusHandlers.RegisteredIsFound` | modbus/mb.c:243-411 | After a successful registration a full search for the code finds a handler registered for it |
| `ModbusHandlers.RegisteredAgain` | modbus/mb.c:252-262 | In a packed table a handler registered again has the new code and no other |

## Left out

- RunScript: stops after a given number of lines, because a script need not terminate; the function theorems are about every number of lines.
- LoopKeepsToMeaningIff: is about scripts that consist of one loop with the bare loop directly in its body; elsewhere the extra condition may happen to be the very command that the meaning runs next, and then the two histories differ only later. `RunsAsMeantIff` is about all programs.
- LoopEndsAsMeantIff: is about `break`s of a loop outside of all ifs, with no loop between such a `break` and the end of its branch; inside other ifs the `fi` closes one of those, as `FiAfterBreakIff` says.
- FileActs: does not cover files whose last line has no newline, lines longer than the buffer, or files with NUL bytes.
- FileMeansProgram: is about the same files as FileActs.
- SpelledWordsAreGoodSource: reads words before expansion, so a keyword that comes out of an expansion, and a condition that expands to the empty string, which the code refuses, are left to the abstract reader `Shell.lex`.
- ExecuteCommand: `break` with arguments, which the command table refuses, is a command whose failure is left to the world.
- GetArgument: finds the text of an argument before its expansion; `CommandLine.CollectArguments` has both.
- What a command does: builtin, file and table commands, redirection, `nice`, background commands, nested `sh` and `time`.
- Failure of `ftell` and `fseek`, and out of memory in the concatenation of an argument.
- The fixed number of arguments (`MAX_ARGV_ENTRIES`): argument lists are unbounded.
- Back-quoted commands, and back-slash quoting combined with expansion and tokenising.
- `set` without arguments (printing), and `cd` changing `PWD` and `OLDPWD`.
- Parsing of the options of `dd`, opening and closing its files, and its statistics.
- Modbus framing, event queue, replies and master mode; enabling, disabling and closing the stack.
- Palette selection, image access and C output of the bitmap converter.
- The remaining NSH commands, console and network code, and all other applications.
