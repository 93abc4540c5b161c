/** The terminal component of `src/components/terminal.rs`: a shell over the shared file
    system whose message handlers update the component's fields in place. Each handler is
    proved to produce the state the functions of TerminalModel describe. */
module Terminal {
  import opened Text
  import opened FsModel
  import opened Filesystem
  import opened TerminalModel

  /** The loop of `ls` that builds its text, one line per listed entry. */
  method FormatListing(entries: seq<Metadata>) returns (out: string)
    ensures out == ListingLines(entries)
  {
    out := "";
    for i := 0 to |entries|
      invariant out == ListingLines(entries[..i])
    {
      assert entries[..i + 1][..i] == entries[..i];
      var indicator := if entries[i].fileType == Directory then "/" else "";
      out := out + (entries[i].name + indicator + "\n");
    }
    assert entries[..|entries|] == entries;
  }

  /** The loop of `history` that builds its text, one numbered line per entry. */
  method FormatHistory(history: seq<string>) returns (out: string)
    ensures out == HistoryHeading + HistoryLines(history)
  {
    out := HistoryHeading;
    for i := 0 to |history|
      invariant out == HistoryHeading + HistoryLines(history[..i])
    {
      HistoryLinesSnoc(history, i);
      AppendAssociative(HistoryHeading, HistoryLines(history[..i]), HistoryLine(i + 1, history[i]));
      out := out + HistoryLine(i + 1, history[i]);
    }
    assert history[..|history|] == history;
  }

  class Terminal {
    /** The file system, shared with the other components. */
    const fs: FileSystem
    var currentDirectory: string
    var commandHistory: seq<string>
    /** The entry the arrow keys have reached, if any. */
    var historyIndex: Option<nat>
    var outputHistory: seq<Output>
    var currentInput: string

    /** What every handler keeps: at most 50 history entries, none repeating the one before,
        and the arrow position inside the history. */
    ghost predicate Valid()
      reads this
    {
      |commandHistory| <= MaxHistory && NoAdjacentRepeats(commandHistory) &&
      (historyIndex.Some? ==> historyIndex.value < |commandHistory|)
    }

    /** `create`. */
    constructor (fs: FileSystem)
      ensures Valid()
      ensures this.fs == fs && currentDirectory == InitialDirectory && commandHistory == [] &&
        historyIndex == None && outputHistory == Banner && currentInput == ""
    {
      this.fs := fs;
      currentDirectory := InitialDirectory;
      commandHistory := [];
      historyIndex := None;
      outputHistory := Banner;
      currentInput := "";
    }

    /** `InputChanged`. */
    method InputChanged(value: string)
      requires Valid()
      modifies this
      ensures Valid()
      ensures currentInput == value
      ensures currentDirectory == old(currentDirectory) && commandHistory == old(commandHistory) &&
        historyIndex == old(historyIndex) && outputHistory == old(outputHistory)
    {
      currentInput := value;
    }

    /** The `ExecuteCommand` message: runs the trimmed input, if any, and clears the input. */
    method Submit(now: nat) returns (ghost listed: seq<Metadata>, ghost keys: seq<string>)
      requires Valid()
      modifies this, fs
      ensures Valid()
      ensures Trim(old(currentInput)) == [] ==> unchanged(this) && unchanged(fs)
      ensures old(commandHistory) == [] ==> commandHistory == []
      ensures var command := Trim(old(currentInput));
        command != [] ==>
          currentInput == "" && commandHistory == RecordAsWritten(old(commandHistory), command) &&
          historyIndex == None && Words(command) != []
      ensures var command := Trim(old(currentInput));
        command != [] && Words(command) != [] ==>
          var inv := Parse(Words(command));
          currentDirectory == DirAfter(old(fs.files), old(currentDirectory), inv) &&
          fs.Model() == Effect(old(fs.Model()), old(currentDirectory), inv, now).0
      ensures var command := Trim(old(currentInput));
        command != [] && Words(command) != [] ==>
          var inv := Parse(Words(command));
          outputHistory == (if inv == Clear then [] else
            old(outputHistory) + [Command(Prompt(old(currentDirectory), command))] +
            Reply(old(fs.Model()), old(currentDirectory), commandHistory, inv, listed, now))
    {
      var command := Trim(currentInput);
      listed, keys := [], [];
      if command != [] {
        TrimSpec(currentInput);
        assert !AllWhitespace(command) by {
          assert !IsWhitespace(command[0]);
        }
        currentInput := "";
        listed, keys := ExecuteCommand(command, now);
      }
    }

    /** The up arrow: steps back through the history, starting from its latest entry and
        stopping at its first, and shows the entry reached. */
    method ArrowUp()
      requires Valid()
      modifies this
      ensures Valid()
      ensures currentDirectory == old(currentDirectory) && commandHistory == old(commandHistory) &&
        outputHistory == old(outputHistory)
      ensures commandHistory == [] ==> historyIndex == old(historyIndex) && currentInput == old(currentInput)
      ensures old(historyIndex).None? && commandHistory != [] ==> historyIndex == Some(|commandHistory| - 1)
      ensures old(historyIndex).Some? ==>
        historyIndex == Some(if old(historyIndex).value > 0 then old(historyIndex).value - 1 else 0)
      ensures commandHistory != [] ==> historyIndex.Some? && currentInput == commandHistory[historyIndex.value]
    {
      if commandHistory != [] {
        var index := match historyIndex
          case None => |commandHistory| - 1
          case Some(i) => if i > 0 then i - 1 else i;
        historyIndex := Some(index);
        currentInput := commandHistory[index];
      }
    }

    /** The down arrow: steps forward through the history and shows the entry reached; past
        the latest entry it leaves the history and empties the input. */
    method ArrowDown()
      requires Valid()
      modifies this
      ensures Valid()
      ensures currentDirectory == old(currentDirectory) && commandHistory == old(commandHistory) &&
        outputHistory == old(outputHistory)
      ensures old(historyIndex).None? ==> historyIndex == None && currentInput == old(currentInput)
      ensures old(historyIndex).Some? && old(historyIndex).value + 1 < |commandHistory| ==>
        historyIndex == Some(old(historyIndex).value + 1) && currentInput == commandHistory[old(historyIndex).value + 1]
      ensures old(historyIndex).Some? && old(historyIndex).value + 1 >= |commandHistory| ==>
        historyIndex == None && currentInput == ""
    {
      match historyIndex {
        case Some(i) =>
          if i < |commandHistory| - 1 {
            historyIndex := Some(i + 1);
            currentInput := commandHistory[i + 1];
          } else {
            historyIndex := None;
            currentInput := "";
          }
        case None =>
      }
    }

    /** Tab on a single word: a sole matching command name replaces the input; several are
        listed after an echo of the input. A single word that no command starts with changes
        nothing, since the file-name completion that follows needs an operand or a command name.
        Input of several words goes to file-name completion, which is not modelled: the contract
        then says nothing about the input and the scroll-back. */
    method Tab()
      requires Valid()
      modifies this
      ensures Valid()
      ensures currentDirectory == old(currentDirectory) && commandHistory == old(commandHistory) &&
        historyIndex == old(historyIndex)
      ensures var input := Trim(old(currentInput));
        var parts := Words(input);
        var matches := if |parts| == 1 then Completions(parts[0], Commands) else [];
        if |matches| == 1 then
          currentInput == matches[0] && StartsWith(currentInput, parts[0]) && currentInput in Commands &&
          outputHistory == old(outputHistory)
        else if |matches| > 1 then
          currentInput == old(currentInput) &&
          outputHistory == old(outputHistory) + [Command(Prompt(currentDirectory, input)), StandardOutput(Join(matches, "  "))]
        else
          |parts| <= 1 ==> currentInput == old(currentInput) && outputHistory == old(outputHistory)
    {
      var input := Trim(currentInput);
      if input != [] {
        var parts := Words(input);
        if |parts| == 1 {
          var matches := Completions(parts[0], Commands);
          if |matches| == 1 {
            assert matches[0] in matches;
            currentInput := matches[0];
          } else if |matches| > 1 {
            outputHistory := outputHistory + [Command(Prompt(currentDirectory, input)), StandardOutput(Join(matches, "  "))];
          }
        }
      }
    }

    /** `execute_command`: echoes the command line, applies the history rule as written (which
        never records into an empty history, and a terminal's history starts empty), leaves the
        history position, and runs the command its first word names (`split_whitespace` ignores the
        surrounding whitespace, so the `trim` before it changes nothing). `listed` and `keys`
        are what `ls` received and the paths they came from. */
    method ExecuteCommand(command: string, now: nat) returns (ghost listed: seq<Metadata>, ghost keys: seq<string>)
      requires Valid()
      modifies this, fs
      ensures Valid()
      ensures commandHistory == RecordAsWritten(old(commandHistory), command) && historyIndex == None &&
        currentInput == old(currentInput)
      ensures old(commandHistory) == [] ==> commandHistory == []
      ensures var prompt := Command(Prompt(old(currentDirectory), command));
        Words(command) == [] ==>
          currentDirectory == old(currentDirectory) && fs.Model() == old(fs.Model()) &&
          outputHistory == old(outputHistory) + [prompt]
      ensures var prompt := Command(Prompt(old(currentDirectory), command));
        Words(command) != [] ==>
          var inv := Parse(Words(command));
          currentDirectory == DirAfter(old(fs.files), old(currentDirectory), inv) &&
          fs.Model() == Effect(old(fs.Model()), old(currentDirectory), inv, now).0 &&
          outputHistory == (if inv == Clear then [] else
            old(outputHistory) + [prompt] + Reply(old(fs.Model()), old(currentDirectory), commandHistory, inv, listed, now))
      ensures Words(command) != [] && Parse(Words(command)).Ls? ==>
        var r := Listing(old(fs.files), LsPath(old(currentDirectory), Parse(Words(command)).dir));
        r.Ok? ==> (Enumerates(keys, r.value) && |listed| == |keys| &&
          forall i :: 0 <= i < |keys| ==> keys[i] in old(fs.files) && listed[i] == old(fs.files)[keys[i]])
    {
      outputHistory := outputHistory + [Command(Prompt(currentDirectory, command))];
      RecordAsWrittenSpec(commandHistory, command);
      commandHistory := RecordAsWritten(commandHistory, command);
      historyIndex := None;
      listed, keys := [], [];
      var parts := Words(command);
      if parts == [] {
        return;
      }
      listed, keys := Run(Parse(parts), now);
    }

    /** The arm of `execute_command` for one command. */
    method Run(inv: Invocation, now: nat) returns (ghost listed: seq<Metadata>, ghost keys: seq<string>)
      modifies this, fs
      ensures commandHistory == old(commandHistory) && historyIndex == old(historyIndex) &&
        currentInput == old(currentInput)
      ensures currentDirectory == DirAfter(old(fs.files), old(currentDirectory), inv)
      ensures fs.Model() == Effect(old(fs.Model()), old(currentDirectory), inv, now).0
      ensures outputHistory == (if inv == Clear then [] else
        old(outputHistory) + Reply(old(fs.Model()), old(currentDirectory), commandHistory, inv, listed, now))
      ensures inv.Ls? ==>
        var r := Listing(old(fs.files), LsPath(old(currentDirectory), inv.dir));
        r.Ok? ==> (Enumerates(keys, r.value) && |listed| == |keys| &&
          forall i :: 0 <= i < |keys| ==> keys[i] in old(fs.files) && listed[i] == old(fs.files)[keys[i]])
    {
      listed, keys := [], [];
      match inv {
        case Help =>
          outputHistory := outputHistory + [StandardOutput(HelpText)];
        case Cd(target) =>
          RunCd(target);
        case Pwd =>
          outputHistory := outputHistory + [StandardOutput(currentDirectory)];
        case Ls(dir) =>
          listed, keys := RunLs(dir);
        case Cat(file) =>
          RunCat(file);
        case Echo(text) =>
          outputHistory := outputHistory + [StandardOutput(text)];
        case Clear =>
          outputHistory := [];
        case Mkdir(dir) =>
          RunMkdir(dir, now);
        case Touch(file) =>
          RunTouch(file, now);
        case Rm(victim, recursive) =>
          RunRm(victim, recursive);
        case ShowHistory =>
          if commandHistory == [] {
            outputHistory := outputHistory + [StandardOutput("No command history")];
          } else {
            var text := FormatHistory(commandHistory);
            outputHistory := outputHistory + [StandardOutput(text)];
          }
        case Unknown(name) =>
          outputHistory := outputHistory + [ErrorOutput("Unknown command: " + name)];
      }
    }

    /** `cd`: moves to the resolved target when it lists as a directory, else reports why. */
    method RunCd(target: string)
      modifies this
      ensures commandHistory == old(commandHistory) && historyIndex == old(historyIndex) &&
        currentInput == old(currentInput)
      ensures currentDirectory == DirAfter(fs.files, old(currentDirectory), Cd(target))
      ensures outputHistory == old(outputHistory) + Reply(fs.Model(), old(currentDirectory), commandHistory, Cd(target), [], 0)
    {
      var path := ResolvePath(currentDirectory, target);
      var r, _ := fs.ListDirectory(path);
      if r.Ok? {
        currentDirectory := path;
      } else {
        outputHistory := outputHistory + [Failure("cd", r.error)];
      }
    }

    /** `ls`: lists the resolved operand, or the working directory, one line per entry. */
    method RunLs(dir: Option<string>) returns (ghost listed: seq<Metadata>, ghost keys: seq<string>)
      modifies this
      ensures currentDirectory == old(currentDirectory) && commandHistory == old(commandHistory) &&
        historyIndex == old(historyIndex) && currentInput == old(currentInput)
      ensures outputHistory == old(outputHistory) + Reply(fs.Model(), currentDirectory, commandHistory, Ls(dir), listed, 0)
      ensures var r := Listing(fs.files, LsPath(currentDirectory, dir));
        r.Ok? ==> (Enumerates(keys, r.value) && |listed| == |keys| &&
          forall i :: 0 <= i < |keys| ==> keys[i] in fs.files && listed[i] == fs.files[keys[i]])
    {
      var path := if dir.Some? then ResolvePath(currentDirectory, dir.value) else currentDirectory;
      var r;
      r, keys := fs.ListDirectory(path);
      listed := [];
      if r.Ok? {
        LsOutcome(fs.Model(), currentDirectory, commandHistory, dir, r.value, 0);
      } else {
        LsOutcome(fs.Model(), currentDirectory, commandHistory, dir, [], 0);
      }
      if r.Ok? {
        listed := r.value;
        var text := FormatListing(r.value);
        outputHistory := outputHistory + [StandardOutput(text)];
      } else {
        outputHistory := outputHistory + [Failure("ls", r.error)];
      }
    }

    /** `cat`: shows the content of the resolved file, or reports why it cannot. */
    method RunCat(file: Option<string>)
      modifies this
      ensures currentDirectory == old(currentDirectory) && commandHistory == old(commandHistory) &&
        historyIndex == old(historyIndex) && currentInput == old(currentInput)
      ensures outputHistory == old(outputHistory) + Reply(fs.Model(), currentDirectory, commandHistory, Cat(file), [], 0)
    {
      if file.None? {
        outputHistory := outputHistory + [ErrorOutput("cat: missing file operand")];
        return;
      }
      var path := ResolvePath(currentDirectory, file.value);
      var r := fs.ReadFile(path);
      if r.Ok? {
        outputHistory := outputHistory + [StandardOutput(r.value)];
      } else {
        outputHistory := outputHistory + [Failure("cat", r.error)];
      }
    }

    /** `mkdir`: creates the resolved directory, without its parents. */
    method RunMkdir(dir: Option<string>, now: nat)
      modifies this, fs
      ensures currentDirectory == old(currentDirectory) && commandHistory == old(commandHistory) &&
        historyIndex == old(historyIndex) && currentInput == old(currentInput)
      ensures fs.Model() == Effect(old(fs.Model()), currentDirectory, Mkdir(dir), now).0
      ensures outputHistory == old(outputHistory) + Reply(old(fs.Model()), currentDirectory, commandHistory, Mkdir(dir), [], now)
    {
      if dir.None? {
        outputHistory := outputHistory + [ErrorOutput("mkdir: missing directory operand")];
      } else {
        ghost var s0 := fs.Model();
        var path := ResolvePath(currentDirectory, dir.value);
        ghost var c := CreateDir(s0, path, false, now);
        MkdirOutcome(s0, currentDirectory, commandHistory, dir.value, [], now);
        var r := fs.CreateDirectory(path, false, now);
        assert fs.Model() == c.0 && r == c.1;
        if r.Err? {
          outputHistory := outputHistory + [Failure("mkdir", r.error)];
        }
      }
    }

    /** `touch`: writes empty content to the resolved file. */
    method RunTouch(file: Option<string>, now: nat)
      modifies this, fs
      ensures currentDirectory == old(currentDirectory) && commandHistory == old(commandHistory) &&
        historyIndex == old(historyIndex) && currentInput == old(currentInput)
      ensures fs.Model() == Effect(old(fs.Model()), currentDirectory, Touch(file), now).0
      ensures outputHistory == old(outputHistory) + Reply(old(fs.Model()), currentDirectory, commandHistory, Touch(file), [], now)
    {
      if file.None? {
        outputHistory := outputHistory + [ErrorOutput("touch: missing file operand")];
      } else {
        ghost var s0 := fs.Model();
        var path := ResolvePath(currentDirectory, file.value);
        ghost var w := Write(s0, path, "", now);
        TouchOutcome(s0, currentDirectory, commandHistory, file.value, [], now);
        var r := fs.WriteFile(path, "", now);
        assert fs.Model() == w.0 && r == w.1;
        if r.Err? {
          outputHistory := outputHistory + [Failure("touch", r.error)];
        }
      }
    }

    /** `rm`: deletes the resolved entry, recursively only with "-r". */
    method RunRm(victim: Option<string>, recursive: bool)
      modifies this, fs
      ensures currentDirectory == old(currentDirectory) && commandHistory == old(commandHistory) &&
        historyIndex == old(historyIndex) && currentInput == old(currentInput)
      ensures fs.Model() == Effect(old(fs.Model()), currentDirectory, Rm(victim, recursive), 0).0
      ensures outputHistory == old(outputHistory) + Reply(old(fs.Model()), currentDirectory, commandHistory, Rm(victim, recursive), [], 0)
    {
      if victim.None? {
        outputHistory := outputHistory + [ErrorOutput("rm: missing operand")];
      } else {
        ghost var s0 := fs.Model();
        var path := ResolvePath(currentDirectory, victim.value);
        ghost var d := Delete(s0, path, recursive);
        RmOutcome(s0, currentDirectory, commandHistory, victim.value, recursive, [], 0);
        var r := fs.DeleteEntry(path, recursive);
        assert fs.Model() == d.0 && r == d.1;
        if r.Err? {
          outputHistory := outputHistory + [Failure("rm", r.error)];
        }
      }
    }
  }
}
