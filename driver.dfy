/** The body of cli-init's main function after flag parsing: deciding what to
    do with an existing directory (cli-init.go:163-180) and the sequence of
    generation steps with its error checks (cli-init.go:182-216).

    File and process effects are abstract: a step's outcome is given by a
    predicate `fails`, and the steps the run reaches are returned in order. */
module Driver {
  import opened Model

  // ---------------------------------------------------------------------
  // The overwrite decision (cli-init.go:163-180)
  // ---------------------------------------------------------------------

  /** What the terminal prompt produced: the word that fmt.Scanf("%s") read
      (never empty: an empty line or end of input is a read error), or a read
      error. */
  datatype Answer = Typed(word: string) | ReadError

  /** How the run goes on: into a directory that did not exist, into one that
      was just removed, not at all (exit 0, nothing changed), or it dies via
      assert/log.Fatal. */
  datatype Prepare = CreateFresh | RemoveAndCreate | LeaveUnchanged | Fatal

  /** `present` is what the first os.Stat, `removeFails` the outcome of
      os.RemoveAll and `answer` the prompt's reply (read only when asked).
      After a successful RemoveAll the second os.Stat finds nothing. */
  function OverwriteDecision(present: bool, force: bool, removeFails: bool, answer: Answer): (d: Prepare)
    requires answer.Typed? ==> answer.word != ""
    ensures !present ==> d == CreateFresh
    ensures d == RemoveAndCreate <==> present && (force || answer == Typed("Y")) && !removeFails
    ensures d == LeaveUnchanged <==> present && !force && answer.Typed? && answer.word != "Y"
    ensures d == Fatal <==>
              present && (((force || answer == Typed("Y")) && removeFails) || (!force && answer == ReadError))
  {
    if present && force then
      (if removeFails then Fatal else RemoveAndCreate)
    else if present then
      match answer
      case ReadError => Fatal
      case Typed(word) =>
        if word == "Y" then (if removeFails then Fatal else RemoveAndCreate)
        else LeaveUnchanged
    else CreateFresh
  }

  /** Only the exact word "Y" overwrites; "y" leaves the directory alone,
      and pressing Enter at the "[Y/n]" prompt is a read error that kills the
      run, although the capital Y suggests it is the default. */
  lemma OnlyCapitalYOverwrites()
    ensures OverwriteDecision(true, false, false, Typed("y")) == LeaveUnchanged
    ensures OverwriteDecision(true, false, false, ReadError) == Fatal
    ensures OverwriteDecision(true, false, false, Typed("Y")) == RemoveAndCreate
  {
  }

  // ---------------------------------------------------------------------
  // The generation sequence (cli-init.go:182-216)
  // ---------------------------------------------------------------------

  /** The effectful steps of main, in source order: os.Mkdir, the five
      Source.generate calls and GoFmt. */
  datatype Step = MakeDir | Readme | Changelog | VersionFile | MainFile | CommandsFile | Format

  /** The file a rendering step writes inside the application directory
      (cli-init.go:18-36, 201-204); MakeDir and Format write none. */
  function FileName(step: Step, appName: string): (name: string)
    ensures name != "" <==> Renders(step)
  {
    match step
    case Readme => "README.md"
    case Changelog => "CHANGELOG.md"
    case VersionFile => "version.go"
    case MainFile => appName + ".go"
    case CommandsFile => "commands.go"
    case MakeDir => ""
    case Format => ""
  }

  predicate Renders(step: Step) {
    step != MakeDir && step != Format
  }

  /** The steps main performs when none fails: the commands file only for an
      application with sub-commands (cli-init.go:209). */
  function Schedule(hasSubCommand: bool): (steps: seq<Step>)
    ensures |steps| == if hasSubCommand then 7 else 6
    ensures steps[..5] == [MakeDir, Readme, Changelog, VersionFile, MainFile]
    ensures steps[|steps| - 1] == Format
    ensures CommandsFile in steps <==> hasSubCommand
  {
    [MakeDir, Readme, Changelog, VersionFile, MainFile]
      + (if hasSubCommand then [CommandsFile] else [])
      + [Format]
  }

  /** The files the given steps write, in order. */
  function Files(steps: seq<Step>, appName: string): (files: seq<string>)
    ensures |files| <= |steps|
  {
    if steps == [] then []
    else (if Renders(steps[0]) then [FileName(steps[0], appName)] else [])
           + Files(steps[1..], appName)
  }

  /** The files of two step lists in a row are the files of the first
      followed by those of the second. */
  lemma {:induction false} FilesConcat(a: seq<Step>, b: seq<Step>, appName: string)
    ensures Files(a + b, appName) == Files(a, appName) + Files(b, appName)
    decreases |a|
  {
    if a == [] {
      assert a + b == b;
    } else {
      FilesConcat(a[1..], b, appName);
      assert (a + b)[0] == a[0] && (a + b)[1..] == a[1..] + b;
    }
  }

  /** One step writes its own file when it renders, and nothing otherwise. */
  lemma FilesSingle(step: Step, appName: string)
    ensures Files([step], appName) == if Renders(step) then [FileName(step, appName)] else []
  {
    assert [step][1..] == [];
  }

  /** What a run did: the steps it reached, and whether it died (log.Fatal). */
  datatype Outcome = Outcome(attempted: seq<Step>, aborted: bool)

  /** One step of a straight-line run followed by the outcome `rest` of the
      steps after it: a failing step whose error is `checked` ends the run
      there; a failing unchecked one is passed over. */
  function Run(step: Step, rest: Outcome, fails: Step -> bool, checked: Step -> bool): (o: Outcome) {
    if checked(step) && fails(step) then Outcome([step], true)
    else Outcome([step] + rest.attempted, rest.aborted)
  }

  /** Reference semantics of running the steps in turn. */
  function Execute(steps: seq<Step>, fails: Step -> bool, checked: Step -> bool): (o: Outcome)
    decreases |steps|
  {
    if steps == [] then Outcome([], false)
    else Run(steps[0], Execute(steps[1..], fails, checked), fails, checked)
  }

  /** A run attempts a prefix of its steps, all of them unless it dies. It
      dies exactly when some checked step fails, and then at the first such
      step, having attempted every step up to it and no later one. */
  lemma {:induction false} ExecuteStopsAtFirstFatal(steps: seq<Step>, fails: Step -> bool, checked: Step -> bool)
    ensures var o := Execute(steps, fails, checked);
      |o.attempted| <= |steps| && o.attempted == steps[..|o.attempted|]
      && (!o.aborted ==> o.attempted == steps)
      && (o.aborted <==> exists i | 0 <= i < |steps| :: checked(steps[i]) && fails(steps[i]))
      && (o.aborted ==>
            |o.attempted| > 0
            && checked(o.attempted[|o.attempted| - 1]) && fails(o.attempted[|o.attempted| - 1])
            && forall i | 0 <= i < |o.attempted| - 1 :: !(checked(o.attempted[i]) && fails(o.attempted[i])))
    decreases |steps|
  {
    if steps != [] {
      var rest := steps[1..];
      ExecuteStopsAtFirstFatal(rest, fails, checked);
      var r := Execute(rest, fails, checked);
      var o := Execute(steps, fails, checked);
      assert forall i | 1 <= i < |steps| :: steps[i] == rest[i - 1];
      if !(checked(steps[0]) && fails(steps[0])) {
        assert o.attempted == [steps[0]] + r.attempted;
        assert forall i | 1 <= i < |o.attempted| :: o.attempted[i] == r.attempted[i - 1];
        if o.aborted {
          var j :| 0 <= j < |rest| && checked(rest[j]) && fails(rest[j]);
          assert checked(steps[j + 1]) && fails(steps[j + 1]);
        }
      }
    }
  }

  /** Running the schedule, step by step (cli-init.go:183-213). */
  lemma ExecuteSchedule(hasSubCommand: bool, fails: Step -> bool, checked: Step -> bool)
    ensures
      var done := Outcome([], false);
      var tail := if hasSubCommand
        then Run(CommandsFile, Run(Format, done, fails, checked), fails, checked)
        else Run(Format, done, fails, checked);
      Execute(Schedule(hasSubCommand), fails, checked)
        == Run(MakeDir, Run(Readme, Run(Changelog, Run(VersionFile, Run(MainFile, tail,
             fails, checked), fails, checked), fails, checked), fails, checked), fails, checked)
  {
    var steps := Schedule(hasSubCommand);
    var n := |steps|;
    assert steps[n - 1..] == [Format] && steps[n - 1..][1..] == [];
    assert Execute(steps[n - 1..], fails, checked) == Run(Format, Outcome([], false), fails, checked);
    if hasSubCommand {
      assert steps[5..][1..] == steps[6..] && steps[5..][0] == CommandsFile;
      assert Execute(steps[5..], fails, checked) == Run(CommandsFile, Execute(steps[6..], fails, checked), fails, checked);
    }
    assert steps[4..][1..] == steps[5..] && steps[4..][0] == MainFile;
    assert Execute(steps[4..], fails, checked) == Run(MainFile, Execute(steps[5..], fails, checked), fails, checked);
    assert steps[3..][1..] == steps[4..] && steps[3..][0] == VersionFile;
    assert Execute(steps[3..], fails, checked) == Run(VersionFile, Execute(steps[4..], fails, checked), fails, checked);
    assert steps[2..][1..] == steps[3..] && steps[2..][0] == Changelog;
    assert Execute(steps[2..], fails, checked) == Run(Changelog, Execute(steps[3..], fails, checked), fails, checked);
    assert steps[1..][1..] == steps[2..] && steps[1..][0] == Readme;
    assert Execute(steps[1..], fails, checked) == Run(Readme, Execute(steps[2..], fails, checked), fails, checked);
    assert Execute(steps, fails, checked) == Run(MakeDir, Execute(steps[1..], fails, checked), fails, checked);
  }

  /** Which errors main looks at. The main-file result is never stored in
      err, so the assert after it looks again at the version step's nil error; the
      commands-file result is not looked at at all. */
  predicate CheckedAsWritten(step: Step) {
    step != MainFile && step != CommandsFile
  }

  /** main from os.Mkdir on, as written. `fatal` records that assert has
      called log.Fatal, after which nothing else runs. */
  method Generate(app: Application, fails: Step -> bool) returns (attempted: seq<Step>, aborted: bool)
    ensures Outcome(attempted, aborted) == Execute(Schedule(app.HasSubCommand), fails, CheckedAsWritten)
  {
    ExecuteSchedule(app.HasSubCommand, fails, CheckedAsWritten);
    var err: bool;
    var fatal := false;
    attempted := [];

    // Create directory
    err := fails(MakeDir);
    attempted := attempted + [MakeDir];
    fatal := err;

    // Create README.md
    if !fatal {
      err := fails(Readme);
      attempted := attempted + [Readme];
      fatal := err;
    }
    // Create CHANGELOG.md
    if !fatal {
      err := fails(Changelog);
      attempted := attempted + [Changelog];
      fatal := err;
    }
    // Create version.go
    if !fatal {
      err := fails(VersionFile);
      attempted := attempted + [VersionFile];
      fatal := err;
    }
    // Create <appName>.go: the result is dropped and the stale err checked again
    if !fatal {
      var dropped := fails(MainFile);
      attempted := attempted + [MainFile];
      fatal := err;
    }
    // Create commands.go: the result is dropped
    if !fatal && app.HasSubCommand {
      var dropped := fails(CommandsFile);
      attempted := attempted + [CommandsFile];
    }
    // GoFmt
    if !fatal {
      err := fails(Format);
      attempted := attempted + [Format];
      fatal := err;
    }
    aborted := fatal;
  }

  /** The run dies exactly when the directory, the README, the changelog,
      the version file or the formatting fails; a failing main or commands
      file goes unnoticed. */
  lemma {:induction false} AbortsAsWritten(app: Application, fails: Step -> bool)
    ensures Execute(Schedule(app.HasSubCommand), fails, CheckedAsWritten).aborted <==>
              fails(MakeDir) || fails(Readme) || fails(Changelog) || fails(VersionFile) || fails(Format)
  {
    ExecuteSchedule(app.HasSubCommand, fails, CheckedAsWritten);
  }

  /** When the run does not die (every step succeeds, or only the main or
      the commands file fails), the files attempted are README.md,
      CHANGELOG.md, version.go and <appName>.go, then commands.go exactly
      for an application with sub-commands. */
  lemma FilesWhenAllSucceed(app: Application, fails: Step -> bool)
    requires !Execute(Schedule(app.HasSubCommand), fails, CheckedAsWritten).aborted
    ensures Files(Execute(Schedule(app.HasSubCommand), fails, CheckedAsWritten).attempted, app.Name)
              == ["README.md", "CHANGELOG.md", "version.go", app.Name + ".go"]
                 + (if app.HasSubCommand then ["commands.go"] else [])
  {
    ExecuteSchedule(app.HasSubCommand, fails, CheckedAsWritten);
    ExecuteStopsAtFirstFatal(Schedule(app.HasSubCommand), fails, CheckedAsWritten);
    FilesOfSchedule(app.HasSubCommand, app.Name);
  }

  /** The files of the full schedule. */
  lemma FilesOfSchedule(hasSubCommand: bool, appName: string)
    ensures Files(Schedule(hasSubCommand), appName)
              == ["README.md", "CHANGELOG.md", "version.go", appName + ".go"]
                 + (if hasSubCommand then ["commands.go"] else [])
  {
    var steps := Schedule(hasSubCommand);
    var n := |steps|;
    assert steps[n - 1..] == [Format] && steps[n - 1..][1..] == [];
    assert Files(steps[n - 1..], appName) == [];
    if hasSubCommand {
      assert steps[5..][1..] == steps[6..] && steps[5..][0] == CommandsFile;
      assert Files(steps[5..], appName) == ["commands.go"] + Files(steps[6..], appName);
    }
    assert steps[4..][1..] == steps[5..] && steps[4..][0] == MainFile;
    assert Files(steps[4..], appName) == [appName + ".go"] + Files(steps[5..], appName);
    assert steps[3..][1..] == steps[4..] && steps[3..][0] == VersionFile;
    assert Files(steps[3..], appName) == ["version.go"] + Files(steps[4..], appName);
    assert steps[2..][1..] == steps[3..] && steps[2..][0] == Changelog;
    assert Files(steps[2..], appName) == ["CHANGELOG.md"] + Files(steps[3..], appName);
    assert steps[1..][1..] == steps[2..] && steps[1..][0] == Readme;
    assert Files(steps[1..], appName) == ["README.md"] + Files(steps[2..], appName);
    assert Files(steps, appName) == Files(steps[1..], appName);
  }

  /** A failure of the README, the changelog or the version file stops the
      run there: the run attempts a prefix of Mkdir, README, CHANGELOG and
      version, and neither the main nor the commands file. */
  lemma EarlyFailureStops(app: Application, fails: Step -> bool, step: Step)
    requires step in {Readme, Changelog, VersionFile} && fails(step)
    ensures Execute(Schedule(app.HasSubCommand), fails, CheckedAsWritten).aborted
    ensures var o := Execute(Schedule(app.HasSubCommand), fails, CheckedAsWritten);
      |o.attempted| <= 4 && o.attempted == [MakeDir, Readme, Changelog, VersionFile][..|o.attempted|]
    ensures MainFile !in Execute(Schedule(app.HasSubCommand), fails, CheckedAsWritten).attempted
    ensures CommandsFile !in Execute(Schedule(app.HasSubCommand), fails, CheckedAsWritten).attempted
  {
    ExecuteSchedule(app.HasSubCommand, fails, CheckedAsWritten);
  }

  /** When step k of Mkdir, README, CHANGELOG and version is the first to
      fail, the run attempts exactly the steps up to k and dies there. */
  lemma EarlyFailureOutcome(app: Application, fails: Step -> bool, k: nat)
    requires k < 4
    requires fails(Schedule(app.HasSubCommand)[k])
    requires forall i | 0 <= i < k :: !fails(Schedule(app.HasSubCommand)[i])
    ensures Execute(Schedule(app.HasSubCommand), fails, CheckedAsWritten)
              == Outcome(Schedule(app.HasSubCommand)[..k + 1], true)
  {
    var steps := Schedule(app.HasSubCommand);
    ExecuteSchedule(app.HasSubCommand, fails, CheckedAsWritten);
    assert steps[..5] == [MakeDir, Readme, Changelog, VersionFile, MainFile];
    if k == 0 {
      assert steps[..1] == [MakeDir];
    } else if k == 1 {
      assert !fails(steps[0]);
      assert steps[..2] == [MakeDir, Readme];
    } else if k == 2 {
      assert !fails(steps[0]) && !fails(steps[1]);
      assert steps[..3] == [MakeDir, Readme, Changelog];
    } else {
      assert !fails(steps[0]) && !fails(steps[1]) && !fails(steps[2]);
      assert steps[..4] == [MakeDir, Readme, Changelog, VersionFile];
    }
  }

  /** The main file clashes with another output file exactly when the
      application is called "version", or "commands" with sub-commands: two
      steps then write the same path. */
  lemma FileNamesDistinct(hasSubCommand: bool, appName: string)
    ensures var files := Files(Schedule(hasSubCommand), appName);
      (forall i, j | 0 <= i < j < |files| :: files[i] != files[j])
        <==> appName != "version" && !(hasSubCommand && appName == "commands")
  {
    FilesOfSchedule(hasSubCommand, appName);
    var files := Files(Schedule(hasSubCommand), appName);
    var main := appName + ".go";
    assert main[|main| - 1] == 'o';
    assert main != "README.md" && main != "CHANGELOG.md";
    GoName(appName, "version");
    GoName(appName, "commands");
    assert "version.go" == "version" + ".go" && "commands.go" == "commands" + ".go";
    assert files[3] == main;
    if appName == "version" {
      assert files[2] == files[3];
    } else if hasSubCommand && appName == "commands" {
      assert files[3] == files[4];
    } else {
      forall i, j | 0 <= i < j < |files| ensures files[i] != files[j] {
      }
    }
  }

  /** "<a>.go" names two equal files only for equal a. */
  lemma GoName(a: string, b: string)
    ensures a + ".go" == b + ".go" <==> a == b
  {
    if a + ".go" == b + ".go" {
      assert |a| == |b|;
      assert a == (a + ".go")[..|a|];
      assert b == (b + ".go")[..|b|];
    }
  }

  // ---------------------------------------------------------------------
  // The discarded errors, and the fail-fast sequence evidently intended
  // ---------------------------------------------------------------------

  /** With only the main file failing, main as written finishes normally. */
  lemma MainFailureIgnored(app: Application)
    ensures var fails := (s: Step) => s == MainFile;
      var o := Execute(Schedule(app.HasSubCommand), fails, CheckedAsWritten);
      !o.aborted && MainFile in o.attempted && Format in o.attempted
  {
    var fails := (s: Step) => s == MainFile;
    AbortsAsWritten(app, fails);
    ExecuteStopsAtFirstFatal(Schedule(app.HasSubCommand), fails, CheckedAsWritten);
    assert Schedule(app.HasSubCommand)[4] == MainFile;
  }

  /** With only the commands file failing, main as written finishes normally. */
  lemma CommandsFailureIgnored(app: Application)
    requires app.HasSubCommand
    ensures var fails := (s: Step) => s == CommandsFile;
      var o := Execute(Schedule(app.HasSubCommand), fails, CheckedAsWritten);
      !o.aborted && CommandsFile in o.attempted && Format in o.attempted
  {
    var fails := (s: Step) => s == CommandsFile;
    AbortsAsWritten(app, fails);
    ExecuteStopsAtFirstFatal(Schedule(app.HasSubCommand), fails, CheckedAsWritten);
    assert Schedule(app.HasSubCommand)[5] == CommandsFile;
  }

  predicate CheckedAll(step: Step) {
    true
  }

  /** main with every generate result stored in err and asserted; each
      `return` with `aborted` set stands for log.Fatal. */
  method GenerateFailFast(app: Application, fails: Step -> bool) returns (attempted: seq<Step>, aborted: bool)
    ensures Outcome(attempted, aborted) == Execute(Schedule(app.HasSubCommand), fails, CheckedAll)
  {
    ExecuteSchedule(app.HasSubCommand, fails, CheckedAll);
    var err: bool;
    attempted, aborted := [], true;

    err := fails(MakeDir);
    attempted := attempted + [MakeDir];
    if err { return; }
    err := fails(Readme);
    attempted := attempted + [Readme];
    if err { return; }
    err := fails(Changelog);
    attempted := attempted + [Changelog];
    if err { return; }
    err := fails(VersionFile);
    attempted := attempted + [VersionFile];
    if err { return; }
    err := fails(MainFile);
    attempted := attempted + [MainFile];
    if err { return; }
    if app.HasSubCommand {
      err := fails(CommandsFile);
      attempted := attempted + [CommandsFile];
      if err { return; }
    }
    err := fails(Format);
    attempted := attempted + [Format];
    aborted := err;
  }

  /** Fail-fast: the run dies exactly when a scheduled step fails; it
      attempts a prefix of the schedule, dies at the first failing step, and
      every step before it succeeded. */
  lemma FailFastAbortsOnFailure(app: Application, fails: Step -> bool)
    ensures var steps := Schedule(app.HasSubCommand);
      var o := Execute(steps, fails, CheckedAll);
      |o.attempted| <= |steps| && o.attempted == steps[..|o.attempted|]
      && (o.aborted <==> exists i | 0 <= i < |steps| :: fails(steps[i]))
      && (o.aborted ==> fails(o.attempted[|o.attempted| - 1])
                        && forall i | 0 <= i < |o.attempted| - 1 :: !fails(o.attempted[i]))
      && (!o.aborted ==> o.attempted == steps)
  {
    ExecuteStopsAtFirstFatal(Schedule(app.HasSubCommand), fails, CheckedAll);
  }
}
