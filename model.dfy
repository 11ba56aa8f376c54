/** The template data of cli-init: the Application record that every
    template is rendered against, and the SubCommand records derived from
    the names given with -s (cli-init.go:38-46, 57-98). */
module Model {
  import opened Naming
  import opened Input

  datatype SubCommand = SubCommand(Name: string, DefineName: string, FunctionName: string)

  datatype Application = Application(
    Name: string,
    Author: string,
    Email: string,
    Username: string,
    HasSubCommand: bool,
    SubCommands: seq<SubCommand>)

  /** The entry built for one sub-command name (cli-init.go:89-93). */
  function MakeSubCommand(name: string): (c: SubCommand)
    requires name != ""
    ensures c.Name == name
    ensures |c.DefineName| == 7 + |name| && c.DefineName[..7] == "command"
    ensures |c.FunctionName| == 2 + |name| && c.FunctionName[..2] == "do"
    ensures c.DefineName[7..] == c.FunctionName[2..] == ToUpperFirst(name)
  {
    var upper := ToUpperFirst(name);
    assert ("command" + upper)[7..] == upper && ("do" + upper)[2..] == upper;
    SubCommand(name, "command" + upper, "do" + upper)
  }

  /** What the source needs of the split flag value so that it does not
      panic: at least one element (strings.Split always returns one), and,
      unless the first element is the empty sentinel, no empty name, because
      ToUpperFirst fails on "". */
  predicate WellFormedNames(names: seq<string>) {
    |names| > 0 && (names[0] != "" ==> forall i | 0 <= i < |names| :: names[i] != "")
  }

  /** defineSubCommands: nothing when the first name is the empty sentinel,
      whatever follows it; otherwise one entry per name, in input order. */
  method DefineSubCommands(names: seq<string>) returns (subCommands: seq<SubCommand>)
    requires WellFormedNames(names)
    ensures names[0] == "" ==> subCommands == []
    ensures names[0] != "" ==> |subCommands| == |names|
    ensures names[0] != "" ==> forall i | 0 <= i < |names| ::
              subCommands[i].Name == names[i]
              && subCommands[i].DefineName == "command" + ToUpperFirst(names[i])
              && subCommands[i].FunctionName == "do" + ToUpperFirst(names[i])
  {
    subCommands := [];
    if names[0] == "" {
      return;
    }
    var k := 0;
    while k < |names|
      invariant 0 <= k <= |names|
      invariant |subCommands| == k
      invariant forall i | 0 <= i < k :: subCommands[i] == MakeSubCommand(names[i])
    {
      var subCommand := MakeSubCommand(names[k]);
      subCommands := subCommands + [subCommand];
      k := k + 1;
    }
  }

  /** defineApplication. gitConfig stands for the git configuration reader
      (GitConfig, not part of this model); nothing is assumed of it, so the
      contract holds whatever it yields for an unset key. */
  method DefineApplication(appName: string, names: seq<string>, username: string, gitConfig: string -> string)
    returns (app: Application)
    requires WellFormedNames(names)
    ensures app.Name == appName
    ensures app.Author == gitConfig("user.name") && app.Email == gitConfig("user.email")
    ensures username != "" ==> app.Username == username
    ensures username == "" ==> app.Username == app.Author
    ensures app.HasSubCommand <==> names[0] != ""
    ensures app.HasSubCommand <==> app.SubCommands != []
    ensures app.HasSubCommand ==> |app.SubCommands| == |names|
    ensures forall i | 0 <= i < |app.SubCommands| :: app.SubCommands[i] == MakeSubCommand(names[i])
  {
    var hasSubCommand := false;
    if names[0] != "" {
      hasSubCommand := true;
    }
    var gitUsername := gitConfig("user.name");
    var user := username;
    if user == "" {
      user := gitUsername;
    }
    var subCommands := DefineSubCommands(names);
    app := Application(appName, gitUsername, gitConfig("user.email"), user, hasSubCommand, subCommands);
  }

  /** Two sub-commands get the same DefineName exactly when they get the same
      FunctionName, and exactly when their names differ at most in the case
      of the first letter: nothing keeps "add" and "Add" apart. */
  lemma SymbolsCollide(a: string, b: string)
    requires a != "" && b != ""
    ensures MakeSubCommand(a).DefineName == MakeSubCommand(b).DefineName
        <==> MakeSubCommand(a).FunctionName == MakeSubCommand(b).FunctionName
    ensures MakeSubCommand(a).DefineName == MakeSubCommand(b).DefineName
        <==> UpperAscii(a[0]) == UpperAscii(b[0]) && a[1..] == b[1..]
  {
  }

  /** The generated symbols of a list of names are pairwise distinct exactly
      when no two names differ at most in the case of their first letter. */
  lemma DistinctSymbols(names: seq<string>)
    requires forall i | 0 <= i < |names| :: names[i] != ""
    ensures (forall i, j | 0 <= i < j < |names| ::
               MakeSubCommand(names[i]).DefineName != MakeSubCommand(names[j]).DefineName)
        <==> (forall i, j | 0 <= i < j < |names| ::
               ToUpperFirst(names[i]) != ToUpperFirst(names[j]))
  {
  }

  /** The help text's example "add,list,delete": the first entry. */
  lemma AddEntry()
    ensures MakeSubCommand("add") == SubCommand("add", "commandAdd", "doAdd")
  {
  }

  /** A trailing comma leaves an empty name after a non-empty first one:
      "-s add," makes the source panic in ToUpperFirst. */
  lemma TrailingCommaRejected()
    ensures !WellFormedNames(SplitComma("add,"))
  {
    var parts := ["add", ""];
    assert JoinComma(parts) == "add,";
    SplitJoin(parts);
  }

  /** Two commas in a row do the same: "-s add,,list". */
  lemma DoubleCommaRejected()
    ensures !WellFormedNames(SplitComma("add,,list"))
  {
    DoubleCommaSplit();
    var parts := ["add", "", "list"];
    assert parts[0] != "" && parts[1] == "";
  }

  /** A leading comma makes the first name the sentinel: "-s ,add" silently
      asks for no sub-commands. */
  lemma LeadingCommaDropsAll()
    ensures WellFormedNames(SplitComma(",add")) && SplitComma(",add")[0] == ""
  {
  }

  /** "cli-init todo", with git reporting jane / jane@x.com. */
  method ExampleWithoutSubCommands() {
    var git := (key: string) => if key == "user.name" then "jane" else if key == "user.email" then "jane@x.com" else "";
    EmptyFlag();
    var app := DefineApplication("todo", SplitComma(""), "", git);
    assert app == Application("todo", "jane", "jane@x.com", "jane", false, []);
  }

  /** "cli-init -s add,list,delete -u bob todo", with the same git identity. */
  method ExampleWithSubCommands() {
    var git := (key: string) => if key == "user.name" then "jane" else if key == "user.email" then "jane@x.com" else "";
    var app := DefineApplication("todo", ["add", "list", "delete"], "bob", git);
    AddEntry();
    assert app.HasSubCommand && |app.SubCommands| == 3;
    assert app.SubCommands[0] == SubCommand("add", "commandAdd", "doAdd");
    assert app.Username == "bob" && app.Author == "jane";
  }
}
