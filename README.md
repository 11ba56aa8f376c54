# cli-init in Dafny

cli-init is a scaffolding command for Go command-line programs. Given an application name, an optional comma-separated list of sub-command names (`-s`) and an optional GitHub user name (`-u`), it creates a directory named after the application. It renders up to five templates into that directory: `README.md`, `CHANGELOG.md`, `version.go`, `<name>.go` and, only when sub-commands were asked for, `commands.go`. Then it runs `gofmt` on the result.

This project models the data that the templates are rendered against and the order and error handling of the run:

- `Naming`: `ToUpperFirst`, which capitalises a sub-command name.
- `Input`: the comma split of the `-s` flag value. An empty value becomes the sentinel `[""]`, meaning "no sub-commands".
- `Model`: the `Application` and `SubCommand` records, `defineSubCommands` (a loop that appends one record per name) and `defineApplication`.
- `Driver`: what `main` does with an existing directory (`-f`, or the `[Y/n]` prompt), and the generation sequence from `os.Mkdir` to `GoFmt`, with its irregular error checks.

Outside effects are parameters:

- The git configuration reader `GitConfig` is a function `gitConfig: string -> string`. Nothing is assumed of it: the contracts hold whatever it yields, including for an unset key.
- Whether a step fails (`os.Mkdir`, one `Source.generate`, `GoFmt`) is a predicate `fails: Step -> bool`.
- What `os.Stat`, `os.RemoveAll` and the prompt report are inputs to `OverwriteDecision`.

A run is modelled as the sequence of steps it reaches and whether it ended in `log.Fatal`.

Three points of the code shape the model:

- Every step of the generation sequence has its result stored in `err` and then passed to `assert`, which calls `log.Fatal` on an error (cli-init.go:183-198 and cli-init.go:213). The main-file and commands-file steps break this pattern: their results are never looked at (see Findings). The model keeps both the sequence as written and the corrected one.
- An empty sub-command name, such as the one "-s add," leaves behind, makes `ToUpperFirst` panic on `str[0:1]`. The model therefore makes a well-formed name list a precondition (`WellFormedNames`).
- `ToUpperFirst` upper-cases the first byte of the name, not the first character.

## Model

| member | source | states |
|---|---|---|
| Naming.UpperAscii | cli-init.go:101 | upper-casing one character: the result is never a lower-case ASCII letter; 'a'..'z' move to 'A'..'Z'; every other character is unchanged |
| Naming.ToUpperFirst | cli-init.go:100-102 | for a non-empty string (the source panics on ""): same length, first character upper-cased, every later character unchanged |
| Naming.ToUpperFirstIdempotent | cli-init.go:100-102 | capitalising an already capitalised name changes nothing |
| Naming.ToUpperFirstCollides | cli-init.go:100-102 | two names capitalise alike exactly when their tails are equal and their first characters upper-case alike |
| Naming.UpperAsciiCollides | cli-init.go:101 | two characters upper-case alike exactly when they are equal or one is the lower-case form of the other |
| Naming.DistinctNamesSameCapital | cli-init.go:100-102 | "add" and "Add" are distinct names that capitalise to the same "Add" |
| Input.SplitComma | cli-init.go:152 | splitting the flag value on commas always yields at least one part |
| Input.SplitParts | cli-init.go:152 | no part holds a comma, and there is one more part than there are commas |
| Input.JoinSplit | cli-init.go:152 | joining the parts with commas gives back the flag value |
| Input.SplitJoin | cli-init.go:152 | splitting a comma-join of comma-free parts gives back exactly those parts |
| Input.SplitPrefix | cli-init.go:152 | a comma-free prefix is glued onto the first part of the split |
| Input.SplitLeadingComma | cli-init.go:152 | a leading comma contributes an empty first part |
| Input.FirstPartEmpty | cli-init.go:152 | the first part is the empty sentinel exactly when the flag value is empty or starts with a comma |
| Input.EmptyFlag | cli-init.go:130-152 | the default empty flag value splits into [""] |
| Input.HelpExample | cli-init.go:152 | "add,list,delete" splits into ["add", "list", "delete"] |
| Input.DoubleCommaSplit | cli-init.go:152 | "add,,list" splits into ["add", "", "list"] |
| Model.MakeSubCommand | cli-init.go:89-93 | the entry keeps the name as given; DefineName is "command" and FunctionName is "do", each followed by the capitalised name (tail equal in both), lengths 7 and 2 more than the name |
| Model.WellFormedNames | cli-init.go:80-101 | no contract; defines when the split flag value is safe to build from: at least one element, and, unless the first is the "" sentinel, no empty name, since `ToUpperFirst` panics on `str[0:1]` of "" |
| Model.DefineSubCommands | cli-init.go:80-98 | with the "" sentinel first: the empty sequence, whatever follows it; otherwise one entry per name, in input order, with Name, DefineName and FunctionName derived from that name |
| Model.DefineApplication | cli-init.go:57-78 | Name is appName; Author and Email come from git's user.name and user.email; Username is the override when non-empty, else Author; HasSubCommand holds exactly when the first name is not the sentinel, and exactly when SubCommands is non-empty; SubCommands are the entries of the names. The methods `Model.ExampleWithoutSubCommands` ("cli-init todo") and `Model.ExampleWithSubCommands` ("cli-init -s add,list,delete -u bob todo") apply this contract to two concrete command lines |
| Model.SymbolsCollide | cli-init.go:88-101 | two names get the same DefineName exactly when they get the same FunctionName, and exactly when they differ at most in the case of their first letter |
| Model.DistinctSymbols | cli-init.go:88-95 | a list's DefineNames are pairwise distinct exactly when its capitalised names are |
| Model.AddEntry | cli-init.go:89-93 | "add" gives SubCommand("add", "commandAdd", "doAdd") |
| Model.TrailingCommaRejected | cli-init.go:84-101 | "-s add," leaves an empty name after a non-empty first, which ToUpperFirst cannot take |
| Model.DoubleCommaRejected | cli-init.go:84-101 | "-s add,,list" does the same |
| Model.LeadingCommaDropsAll | cli-init.go:84-86 | "-s ,add" is accepted and yields the sentinel: no sub-commands at all |
| Driver.OverwriteDecision | cli-init.go:163-180 | no directory: create it; removal and re-creation exactly when the directory exists, -f or the answer "Y" asked for it, and RemoveAll succeeded; exit unchanged exactly when the directory exists, no -f, and another word was typed; fatal exactly when a requested removal fails or, without -f, reading the answer fails (a word that is read is never empty) |
| Driver.OnlyCapitalYOverwrites | cli-init.go:169-179 | the typed word "y" leaves the directory alone; pressing Enter on the "[Y/n]" prompt is a read error and fatal, not a default yes; only "Y" removes the directory |
| Driver.Schedule | cli-init.go:183-213 | the step list starts with Mkdir, README, CHANGELOG, version, main file; it ends with GoFmt; it contains the commands step exactly when the application has sub-commands |
| Driver.FileName | cli-init.go:18-36 | the path a step writes; it is non-empty exactly for the five rendering steps (README.md, CHANGELOG.md, version.go, commands.go, and `<appName>.go` built at cli-init.go:201-204), while Mkdir and GoFmt write none |
| Driver.Files | cli-init.go:18-36 | a list of steps writes at most one file per step |
| Driver.FilesConcat | cli-init.go:188-211 | the files of two step lists run one after the other are the files of the first followed by those of the second |
| Driver.FilesSingle | cli-init.go:188-211 | one step writes its own file when it renders, and nothing otherwise |
| Driver.Run | cli-init.go:110-114 | no contract; defines one step followed by the rest of the run: a failing step whose error is looked at calls `log.Fatal` there, any other step is passed over |
| Driver.Execute | cli-init.go:183-213 | no contract; defines the reference run of a step list as a chain of `Run`; its properties are stated by `ExecuteStopsAtFirstFatal` |
| Driver.ExecuteStopsAtFirstFatal | cli-init.go:183-213 | a run attempts a prefix of its steps, and all of them unless it dies; it dies exactly when some checked step fails, at the first such step, with no checked step failing before it |
| Driver.ExecuteSchedule | cli-init.go:183-213 | running the schedule is the fixed chain of steps Mkdir, README, CHANGELOG, version, main, [commands], GoFmt |
| Driver.CheckedAsWritten | cli-init.go:205-210 | no contract; defines which results main looks at: every step's except exactly `MainFile` (its result is never stored in `err`) and `CommandsFile` (its result is dropped) |
| Driver.Generate | cli-init.go:182-216 | main as written, with err reassigned and the stale check after the main file, gives exactly the reference run of the schedule in which only the main-file and commands-file results go unchecked |
| Driver.AbortsAsWritten | cli-init.go:183-213 | the run dies exactly when Mkdir, README, CHANGELOG, version.go or GoFmt fails |
| Driver.FilesWhenAllSucceed | cli-init.go:188-211 | whenever the run as written does not die (every step succeeds, or only the main or commands file fails) the files attempted are, in order, README.md, CHANGELOG.md, version.go, <appName>.go, and then commands.go exactly when HasSubCommand |
| Driver.FilesOfSchedule | cli-init.go:188-211 | the files of the full schedule, in that order |
| Driver.EarlyFailureStops | cli-init.go:189-198 | a failing README, CHANGELOG or version step kills the run; the steps attempted are a prefix of Mkdir, README, CHANGELOG, version, so neither the main file nor commands.go is attempted |
| Driver.EarlyFailureOutcome | cli-init.go:183-198 | when Mkdir, README, CHANGELOG or version is the first step to fail, the run is exactly the schedule up to and including that step, aborted |
| Driver.FileNamesDistinct | cli-init.go:18-36 | the output files are pairwise distinct exactly when the application is not called "version", and not called "commands" while having sub-commands |
| Driver.GoName | cli-init.go:201-204 | "<a>.go" and "<b>.go" are equal exactly when a and b are |
| Driver.MainFailureIgnored | cli-init.go:205-206 | as written, a failing main file alone does not kill the run: GoFmt still runs |
| Driver.CommandsFailureIgnored | cli-init.go:209-211 | as written, a failing commands.go alone does not kill the run |
| Driver.GenerateFailFast | cli-init.go:182-216 | the corrected main, with every generate result assigned to err and asserted, is the reference run with every step checked |
| Driver.FailFastAbortsOnFailure | cli-init.go:183-213 | corrected: the run attempts a prefix of the schedule; it dies exactly when a scheduled step fails, at the first failing step, every earlier step having succeeded; with no failure, every step is attempted |

## Findings

| source | as written | input that shows it | evidently intended | confidence | as-written member | corrected member |
|---|---|---|---|---|---|---|
| cli-init.go:205-206 | `mainGo.generate(...)` is not assigned to `err`, so the following `assert(err)` tests the nil error of the version step again | the main-file step fails and every other step succeeds: the run goes on to GoFmt and exits 0 | `err = mainGo.generate(...)`, so that a failure stops the run like the three steps before it | high; not executed | Driver.MainFailureIgnored | Driver.FailFastAbortsOnFailure |
| cli-init.go:209-211 | the result of `commandsGo.generate(...)` is dropped and never asserted | an application with sub-commands whose commands-file step fails: the run goes on to GoFmt | assign it to `err` and `assert(err)`, as for the other templates | medium; not executed | Driver.CommandsFailureIgnored | Driver.FailFastAbortsOnFailure |

`Driver.Generate` models the code as written. `Driver.GenerateFailFast` is the corrected sequence, and both are tied to the same reference `Driver.Execute`.

## Left out

- Template parsing and rendering (`ParseAsset`, `Asset`, `template.Must`, `text/template`, the body of `Source.generate`): a rendering step is only an outcome, success or failure, given by `fails`. The contents of the files are not modelled. The loading at start-up (cli-init.go:12-16) is not modelled either. That includes its fail-fast panic, and the fact that the commands template is registered under the name "main".
- `GitConfig`, `GoFmt` and `Version` are defined in files that are not part of this model. `GitConfig` is the parameter `gitConfig`. `GoFmt` is the step `Format`, known only by its outcome.
- Flag parsing (`mflag`), `showHelp`, `showVersion`, the help text, `debug` logging and the `DEBUG` environment variable: plain I/O.
- The rejection of an empty application name (cli-init.go:158-161) and the exit status of the process. In the model, a finished run is "not aborted" and `log.Fatal` is "aborted".
- The filesystem itself: `os.Stat`, `os.RemoveAll`, `os.Mkdir` and the file writes are outcomes given as inputs. `OverwriteDecision` assumes that after a successful `RemoveAll` the second `os.Stat` finds nothing. Whatever a failing step leaves on disk is not modelled.
- The model passes in the `Application` that `defineApplication` builds. In the source, it is built after `os.Mkdir` (cli-init.go:186). For a name list that satisfies `WellFormedNames`, building it cannot fail and has no effect that the steps see. For any other list, the source panics in `ToUpperFirst` after `os.Mkdir` (cli-init.go:183) has already created the directory, so an empty directory is left behind; that run is not modelled.
- Naming.ToUpperFirst: covers ASCII only. `strings.ToUpper` applied to the first byte of a multi-byte character depends on library behaviour, so characters other than 'a'..'z' are taken as unchanged.
- `Driver.Generate`: a step's outcome is a fixed predicate of the step. It cannot depend on what earlier steps did, for instance when the application is called "version" and two steps write the same path.
