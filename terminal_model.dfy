/** The value-level parts of the terminal of `src/components/terminal.rs`: its output lines,
    the resolution of command operands against the working directory, the command history, the
    completion of command names, the reading of a command line as one of the built-in commands,
    and the effect of each command on the working directory and on the file system. The component
    itself, whose fields its handlers update in place, is the class in module Terminal. */
module TerminalModel {
  import opened Text
  import opened FsModel
  import opened FsPaths
  import opened FsProps

  /** `TerminalOutput`: one line of the scroll-back. */
  datatype Output = Command(text: string) | StandardOutput(text: string) | ErrorOutput(text: string)

  const InitialDirectory: string := "/home"

  /** The scroll-back of a new terminal. */
  const Banner: seq<Output> :=
    [StandardOutput("WasmOS Terminal v0.1.0"), StandardOutput("Type 'help' for available commands.")]

  /** The number of commands the history keeps. */
  const MaxHistory: nat := 50

  /** The built-in command names, in the order completion lists them. */
  const Commands: seq<string> :=
    ["help", "cd", "pwd", "ls", "cat", "echo", "clear", "mkdir", "touch", "rm", "history"]

  const HelpText: string :=
    "Available commands:\nhelp       - Show this help\ncd [path]  - Change directory\n" +
    "pwd        - Print working directory\nls         - List directory contents\n" +
    "cat [file] - Display file contents\necho [text]- Display text\nclear      - Clear terminal\n" +
    "mkdir [dir]- Create directory\ntouch [file]- Create empty file\n" +
    "rm [path]  - Remove file or directory\nhistory    - Display command history"

  /** The echo of a command line in the scroll-back: the working directory, " $ ", the text. */
  function Prompt(cwd: string, text: string): string {
    cwd + " $ " + text
  }

  // ---------------------------------------------------------------------------------------
  // resolve_path

  /** `resolve_path`: an operand starting with '/' is used as given; any other is appended to
      the working directory with one '/' between them, unless the directory already ends in one.
      "." and ".." are not interpreted. */
  function ResolvePath(cwd: string, path: string): (r: string)
    ensures EndsWith(r, path)
    ensures StartsWith(path, "/") ==> r == path
    ensures !StartsWith(path, "/") ==>
      StartsWith(r, cwd) && |path| < |r| && |cwd| + |path| <= |r| <= |cwd| + 1 + |path| && r[|r| - |path| - 1] == '/'
  {
    if StartsWith(path, "/") then path else DirPrefix(cwd) + path
  }

  /** A resolved operand is absolute when the working directory is, so resolving it again
      changes nothing. */
  lemma ResolveIdempotent(cwd: string, path: string)
    requires StartsWith(cwd, "/")
    ensures StartsWith(ResolvePath(cwd, path), "/")
    ensures ResolvePath(cwd, ResolvePath(cwd, path)) == ResolvePath(cwd, path)
  {
    if !StartsWith(path, "/") {
      var r := ResolvePath(cwd, path);
      assert r[..1] == cwd[..1];
    }
  }

  /** A plain name resolves to the child of the working directory with that name: a well-formed
      path whose parent is the working directory. */
  lemma ResolveChild(cwd: string, name: string)
    requires WellFormed(cwd) && name != [] && '/' !in name && !IsWhitespace(name[|name| - 1])
    ensures var r := ResolvePath(cwd, name);
      r == DirPrefix(cwd) + name && WellFormed(r) && Parent(r) == Some(cwd) && FileName(r) == Some(name)
  {
    assert name[0] != '/';
    ChildPath(cwd, name, DirPrefix(cwd) + name);
    ParentOfChild(cwd, name);
  }

  // ---------------------------------------------------------------------------------------
  // The command history

  /** After a push, a history longer than the bound loses its oldest entry. */
  function Cap(h: seq<string>): (r: seq<string>)
    ensures |h| <= MaxHistory + 1 ==> |r| <= MaxHistory
    ensures h != [] ==> r != [] && r[|r| - 1] == h[|h| - 1]
  {
    if |h| > MaxHistory then h[1..] else h
  }

  /** The history update of `execute_command` as written: a command is pushed only when the
      history is already non-empty and its last entry differs. */
  function RecordAsWritten(h: seq<string>, command: string): seq<string> {
    Cap(if Trim(command) != [] && (h != [] && h[|h| - 1] != command) then h + [command] else h)
  }

  function RecordAllAsWritten(h: seq<string>, commands: seq<string>): seq<string>
    decreases |commands|
  {
    if commands == [] then h else RecordAllAsWritten(RecordAsWritten(h, commands[0]), commands[1..])
  }

  /** As written, a terminal's history, which starts empty, stays empty whatever is run, so the
      arrow keys and `history` never have anything to show. */
  lemma {:induction false} AsWrittenNeverRecords(commands: seq<string>)
    ensures RecordAllAsWritten([], commands) == []
  {
    if commands != [] {
      assert RecordAsWritten([], commands[0]) == [];
      AsWrittenNeverRecords(commands[1..]);
    }
  }

  /** The first command of a session: dropped as written, kept by `Record`. */
  lemma AsWrittenDropsFirstCommand()
    ensures RecordAsWritten([], "ls") == [] && Record([], "ls") == ["ls"]
  {
    assert "ls"[0] == 'l' && "ls"[1] == 's';
    TrimSpec("ls");
  }

  /** The rule as written keeps the history's bounds; an empty history stays empty. */
  lemma RecordAsWrittenSpec(h: seq<string>, command: string)
    requires |h| <= MaxHistory
    ensures var r := RecordAsWritten(h, command);
      |r| <= MaxHistory && (h == [] ==> r == []) &&
      (NoAdjacentRepeats(h) ==> NoAdjacentRepeats(r))
  {
  }

  /** The history update as intended: a non-blank command is pushed unless it repeats the last
      entry, and the oldest entry goes once there are more than 50. */
  function Record(h: seq<string>, command: string): seq<string> {
    Cap(if Trim(command) != [] && (h == [] || h[|h| - 1] != command) then h + [command] else h)
  }

  /** No entry repeats the one before it. */
  predicate NoAdjacentRepeats(h: seq<string>) {
    forall i :: 0 < i < |h| ==> h[i - 1] != h[i]
  }

  /** `Record` keeps at most 50 entries and no immediate repetition; after a non-blank command
      that command is the most recent entry, and a blank one changes nothing. */
  lemma RecordSpec(h: seq<string>, command: string)
    requires |h| <= MaxHistory
    ensures var r := Record(h, command);
      |r| <= MaxHistory &&
      (Trim(command) != [] ==> r != [] && r[|r| - 1] == command) &&
      (AllWhitespace(command) ==> r == h) &&
      (NoAdjacentRepeats(h) ==> NoAdjacentRepeats(r))
  {
    TrimSpec(command);
  }

  function RecordAll(h: seq<string>, commands: seq<string>): seq<string>
    decreases |commands|
  {
    if commands == [] then h else RecordAll(Record(h, commands[0]), commands[1..])
  }

  /** Over any run of commands from an empty history, the history stays within 50 entries
      without immediate repetitions, and ends with the last non-blank command run. */
  lemma {:induction false} RecordAllSpec(h: seq<string>, commands: seq<string>)
    requires |h| <= MaxHistory && NoAdjacentRepeats(h)
    ensures var r := RecordAll(h, commands);
      |r| <= MaxHistory && NoAdjacentRepeats(r) &&
      (commands != [] && Trim(commands[|commands| - 1]) != [] ==> r != [] && r[|r| - 1] == commands[|commands| - 1])
    decreases |commands|
  {
    if commands != [] {
      RecordSpec(h, commands[0]);
      RecordAllSpec(Record(h, commands[0]), commands[1..]);
      if |commands| == 1 {
        assert RecordAll(Record(h, commands[0]), commands[1..]) == Record(h, commands[0]);
      } else {
        assert commands[1..][|commands| - 2] == commands[|commands| - 1];
      }
    }
  }

  // ---------------------------------------------------------------------------------------
  // Completion of command names

  /** The names among `commands` that start with `word`, in their order. */
  function Completions(word: string, commands: seq<string>): (r: seq<string>)
    ensures |r| <= |commands|
    ensures forall c :: c in r <==> c in commands && StartsWith(c, word)
  {
    if commands == [] then []
    else (if StartsWith(commands[0], word) then [commands[0]] else []) + Completions(word, commands[1..])
  }

  /** `s` does not start with `w` when they differ at a position of `w`. */
  lemma NotPrefix(s: string, w: string, j: nat)
    requires j < |w| && (j >= |s| || s[j] != w[j])
    ensures !StartsWith(s, w)
  {
    if |w| <= |s| {
      assert s[..|w|][j] == s[j];
    }
  }

  /** Each command whose operand Tab would complete as a file is the only completion of its own
      name, so for a single word Tab never reaches file completion. */
  lemma CompleteCd()
    ensures Completions("cd", Commands) == ["cd"]
  {
    NotPrefix("help", "cd", 0);
    NotPrefix("pwd", "cd", 0);
    NotPrefix("ls", "cd", 0);
    NotPrefix("cat", "cd", 1);
    NotPrefix("echo", "cd", 0);
    NotPrefix("clear", "cd", 1);
    NotPrefix("mkdir", "cd", 0);
    NotPrefix("touch", "cd", 0);
    NotPrefix("rm", "cd", 0);
    NotPrefix("history", "cd", 0);
  }

  lemma CompleteLs()
    ensures Completions("ls", Commands) == ["ls"]
  {
    NotPrefix("help", "ls", 0);
    NotPrefix("cd", "ls", 0);
    NotPrefix("pwd", "ls", 0);
    NotPrefix("cat", "ls", 0);
    NotPrefix("echo", "ls", 0);
    NotPrefix("clear", "ls", 0);
    NotPrefix("mkdir", "ls", 0);
    NotPrefix("touch", "ls", 0);
    NotPrefix("rm", "ls", 0);
    NotPrefix("history", "ls", 0);
  }

  lemma CompleteCat()
    ensures Completions("cat", Commands) == ["cat"]
  {
    NotPrefix("help", "cat", 0);
    NotPrefix("cd", "cat", 1);
    NotPrefix("pwd", "cat", 0);
    NotPrefix("ls", "cat", 0);
    NotPrefix("echo", "cat", 0);
    NotPrefix("clear", "cat", 1);
    NotPrefix("mkdir", "cat", 0);
    NotPrefix("touch", "cat", 0);
    NotPrefix("rm", "cat", 0);
    NotPrefix("history", "cat", 0);
  }

  lemma CompleteRm()
    ensures Completions("rm", Commands) == ["rm"]
  {
    NotPrefix("help", "rm", 0);
    NotPrefix("cd", "rm", 0);
    NotPrefix("pwd", "rm", 0);
    NotPrefix("ls", "rm", 0);
    NotPrefix("cat", "rm", 0);
    NotPrefix("echo", "rm", 0);
    NotPrefix("clear", "rm", 0);
    NotPrefix("mkdir", "rm", 0);
    NotPrefix("touch", "rm", 0);
    NotPrefix("history", "rm", 0);
  }

  lemma CompleteTouch()
    ensures Completions("touch", Commands) == ["touch"]
  {
    NotPrefix("help", "touch", 0);
    NotPrefix("cd", "touch", 0);
    NotPrefix("pwd", "touch", 0);
    NotPrefix("ls", "touch", 0);
    NotPrefix("cat", "touch", 0);
    NotPrefix("echo", "touch", 0);
    NotPrefix("clear", "touch", 0);
    NotPrefix("mkdir", "touch", 0);
    NotPrefix("rm", "touch", 0);
    NotPrefix("history", "touch", 0);
  }

  // ---------------------------------------------------------------------------------------
  // The text of `history` and `ls`

  /** The line `history` prints for the `n`th entry (numbered from 1). */
  function HistoryLine(n: nat, command: string): string {
    "\n" + NatToString(n) + (": " + command)
  }

  /** The heading of the `history` output. */
  const HistoryHeading: string := "Command History:"

  /** The lines `history` prints after its heading, one per entry, oldest first. */
  function HistoryLines(h: seq<string>): string
    decreases |h|
  {
    if h == [] then "" else HistoryLines(h[..|h| - 1]) + HistoryLine(|h|, h[|h| - 1])
  }

  /** The lines for a prefix of the history one entry longer end with that entry's line. */
  lemma HistoryLinesSnoc(h: seq<string>, i: nat)
    requires i < |h|
    ensures HistoryLines(h[..i + 1]) == HistoryLines(h[..i]) + HistoryLine(i + 1, h[i])
  {
    assert h[..i + 1][..i] == h[..i];
  }

  /** `history` prints exactly one line per entry (entries come from a single-line input). */
  lemma {:induction false} HistoryLineCount(h: seq<string>)
    requires forall i :: 0 <= i < |h| ==> '\n' !in h[i]
    ensures Count(HistoryLines(h), '\n') == |h|
    decreases |h|
  {
    if h != [] {
      var n := NatToString(|h|);
      HistoryLineCount(h[..|h| - 1]);
      assert '\n' !in n by {
        forall i | 0 <= i < |n| ensures n[i] != '\n' { }
      }
      CountAbsent(n + ": " + h[|h| - 1], '\n');
      assert HistoryLine(|h|, h[|h| - 1]) == "\n" + (n + ": " + h[|h| - 1]);
      CountConcat("\n", n + ": " + h[|h| - 1], '\n');
      CountConcat(HistoryLines(h[..|h| - 1]), HistoryLine(|h|, h[|h| - 1]), '\n');
    }
  }

  /** The line `ls` prints for an entry: its name, a '/' for a directory, a newline. */
  function ListingLine(m: Metadata): string {
    m.name + (if m.fileType == Directory then "/" else "") + "\n"
  }

  /** The text `ls` prints: one line per listed entry, in the order of the listing. */
  function ListingLines(ms: seq<Metadata>): string
    decreases |ms|
  {
    if ms == [] then "" else ListingLines(ms[..|ms| - 1]) + ListingLine(ms[|ms| - 1])
  }

  /** `ls` prints exactly one line per listed entry, and the text ends with a newline unless
      the directory is empty. */
  lemma {:induction false} ListingLineCount(ms: seq<Metadata>)
    requires forall i :: 0 <= i < |ms| ==> '\n' !in ms[i].name
    ensures var t := ListingLines(ms); Count(t, '\n') == |ms| && (t == [] <==> ms == [])
    decreases |ms|
  {
    if ms != [] {
      var m := ms[|ms| - 1];
      var head := m.name + (if m.fileType == Directory then "/" else "");
      ListingLineCount(ms[..|ms| - 1]);
      CountAbsent(head, '\n');
      assert ListingLine(m) == head + "\n";
      CountConcat(head, "\n", '\n');
      CountConcat(ListingLines(ms[..|ms| - 1]), ListingLine(m), '\n');
    }
  }

  // ---------------------------------------------------------------------------------------
  // Commands

  /** The arm of `execute_command` a command line selects, with the operands that arm uses. */
  datatype Invocation =
    | Help
    | Cd(target: string)
    | Pwd
    | Ls(dir: Option<string>)
    | Cat(file: Option<string>)
    | Echo(text: string)
    | Clear
    | Mkdir(newDir: Option<string>)
    | Touch(newFile: Option<string>)
    | Rm(victim: Option<string>, recursive: bool)
    | ShowHistory
    | Unknown(name: string)

  /** The first operand, when there is one. */
  function Operand(parts: seq<string>): (r: Option<string>)
    ensures r.Some? <==> |parts| > 1
  {
    if |parts| > 1 then Some(parts[1]) else None
  }

  /** The match on the first word of the command line. `cd` without operand goes to "/";
      `rm` is recursive exactly when its third word is "-r"; other words are ignored. */
  function Parse(parts: seq<string>): (r: Invocation)
    requires parts != []
    ensures r.Unknown? <==> parts[0] !in Commands
    ensures r.Unknown? ==> r.name == parts[0]
  {
    var name := parts[0];
    if name == "help" then Help
    else if name == "cd" then Cd(if |parts| > 1 then parts[1] else "/")
    else if name == "pwd" then Pwd
    else if name == "ls" then Ls(Operand(parts))
    else if name == "cat" then Cat(Operand(parts))
    else if name == "echo" then Echo(if |parts| > 1 then Join(parts[1..], " ") else "")
    else if name == "clear" then Clear
    else if name == "mkdir" then Mkdir(Operand(parts))
    else if name == "touch" then Touch(Operand(parts))
    else if name == "rm" then Rm(Operand(parts), |parts| > 2 && parts[2] == "-r")
    else if name == "history" then ShowHistory
    else Unknown(name)
  }

  /** Only "-r" in third position makes `rm` recursive: a flag before the operand is taken as
      the operand, and "-rf" is not recognised. */
  lemma RmFlagPosition(t: string)
    requires t != "-r"
    ensures Parse(["rm", t, "-r"]) == Rm(Some(t), true)
    ensures Parse(["rm", "-r", t]) == Rm(Some("-r"), false)
    ensures Parse(["rm", t, "-rf"]) == Rm(Some(t), false)
    ensures Parse(["rm", t]) == Rm(Some(t), false)
  {
    assert |"-rf"| != |"-r"|;
    assert "-r" != "rm" && "-r" != "cd" && "-r" != "ls";
  }

  /** The working directory after a command: `cd` moves to the resolved target exactly when
      that target lists as a directory; every other command keeps it. */
  function DirAfter(files: Index, cwd: string, inv: Invocation): string {
    if inv.Cd? && Listing(files, ResolvePath(cwd, inv.target)).Ok? then ResolvePath(cwd, inv.target) else cwd
  }

  /** The file-system call a command makes, and its outcome: `mkdir` without creating parents,
      `touch` writing empty content, `rm` with its flag; every other command leaves the file
      system as it is. */
  function Effect(s: State, cwd: string, inv: Invocation, now: nat): (State, Result<()>) {
    match inv
    case Mkdir(Some(d)) => CreateDir(s, ResolvePath(cwd, d), false, now)
    case Touch(Some(f)) => Write(s, ResolvePath(cwd, f), "", now)
    case Rm(Some(v), recursive) => Delete(s, ResolvePath(cwd, v), recursive)
    case _ => (s, Ok(()))
  }

  /** The effect and reply of `rm` with an operand, one arm at a time. */
  lemma RmOutcome(s: State, cwd: string, h: seq<string>, v: string, recursive: bool, listed: seq<Metadata>, now: nat)
    ensures var d := Delete(s, ResolvePath(cwd, v), recursive);
      Effect(s, cwd, Rm(Some(v), recursive), now) == d &&
      Reply(s, cwd, h, Rm(Some(v), recursive), listed, now) == (if d.1.Ok? then [] else [Failure("rm", d.1.error)])
  {
  }

  /** The effect and reply of `mkdir` with an operand, one arm at a time. */
  lemma MkdirOutcome(s: State, cwd: string, h: seq<string>, d: string, listed: seq<Metadata>, now: nat)
    ensures var c := CreateDir(s, ResolvePath(cwd, d), false, now);
      Effect(s, cwd, Mkdir(Some(d)), now) == c &&
      Reply(s, cwd, h, Mkdir(Some(d)), listed, now) == (if c.1.Ok? then [] else [Failure("mkdir", c.1.error)])
  {
  }

  /** The effect and reply of `touch` with an operand, one arm at a time. */
  lemma TouchOutcome(s: State, cwd: string, h: seq<string>, f: string, listed: seq<Metadata>, now: nat)
    ensures var w := Write(s, ResolvePath(cwd, f), "", now);
      Effect(s, cwd, Touch(Some(f)), now) == w &&
      Reply(s, cwd, h, Touch(Some(f)), listed, now) == (if w.1.Ok? then [] else [Failure("touch", w.1.error)])
  {
  }

  /** The reply of `ls`, one arm at a time. */
  lemma LsOutcome(s: State, cwd: string, h: seq<string>, d: Option<string>, listed: seq<Metadata>, now: nat)
    ensures var r := Listing(s.files, LsPath(cwd, d));
      Reply(s, cwd, h, Ls(d), listed, now) == (if r.Ok? then [StandardOutput(ListingLines(listed))] else [Failure("ls", r.error)])
  {
  }

  /** `cd` either stays or lands on a path that names an existing directory. */
  lemma CdLandsOnDirectory(files: Index, cwd: string, t: string)
    ensures var d := DirAfter(files, cwd, Cd(t));
      d == cwd || (d == ResolvePath(cwd, t) && NormalizePath(d) in files && files[NormalizePath(d)].fileType == Directory)
  {
  }

  /** `cd` moves to its resolved target whenever that names an existing directory as given. */
  lemma CdMoves(files: Index, cwd: string, t: string, p: string)
    requires ResolvePath(cwd, t) == p && NormalizePath(p) == p && p in files && files[p].fileType == Directory
    ensures DirAfter(files, cwd, Cd(t)) == p
  {
  }

  /** `cd name` into an existing child directory moves one level down: the new working
      directory is well-formed and its parent is the old one. */
  lemma CdIntoChild(files: Index, cwd: string, name: string, p: string)
    requires WellFormed(cwd) && name != [] && '/' !in name && !IsWhitespace(name[|name| - 1])
    requires p == DirPrefix(cwd) + name && p in files && files[p].fileType == Directory
    ensures var d := DirAfter(files, cwd, Cd(name));
      d == p && WellFormed(d) && Parent(d) == Some(cwd)
  {
    ResolveChild(cwd, name);
    NormalizeWellFormed(p);
    CdMoves(files, cwd, name, p);
  }

  /** `cd ..` does not go up: ".." is resolved as a child named "..", so unless such an entry
      was created the working directory stays. */
  lemma CdDotDotStays(files: Index, cwd: string)
    requires WellFormed(cwd) && DirPrefix(cwd) + ".." !in files
    ensures DirAfter(files, cwd, Cd("..")) == cwd
  {
    DotDotPath(cwd);
    CdMissingStays(files, cwd, "..", DirPrefix(cwd) + "..");
  }

  /** `..` names a child called ".." of the working directory, already in normal form. */
  lemma DotDotPath(cwd: string)
    requires WellFormed(cwd)
    ensures ResolvePath(cwd, "..") == DirPrefix(cwd) + ".."
    ensures NormalizePath(DirPrefix(cwd) + "..") == DirPrefix(cwd) + ".."
  {
    ResolveChild(cwd, "..");
    NormalizeWellFormed(DirPrefix(cwd) + "..");
  }

  /** `cd` to a target that resolves to a normal path naming nothing stays put. */
  lemma CdMissingStays(files: Index, cwd: string, t: string, p: string)
    requires ResolvePath(cwd, t) == p && NormalizePath(p) == p && p !in files
    ensures DirAfter(files, cwd, Cd(t)) == cwd
  {
  }

  /** `cd` alone goes to the root. */
  lemma CdAloneGoesToRoot(files: Index, cwd: string)
    requires "/" in files && files["/"].fileType == Directory
    ensures DirAfter(files, cwd, Parse(["cd"])) == "/"
  {
    assert StartsWith("/", "/");
    NormalizeWellFormed("/");
  }

  /** `rm` without "-r" on a directory that has entries fails with "is not empty" and changes
      nothing. */
  lemma RmNeedsFlag(s: State, cwd: string, t: string, now: nat)
    requires var p := ResolvePath(cwd, t);
      NormalizePath(p) == p && p in s.files && s.files[p].fileType == Directory && Children(s.files, p) != {}
    ensures Effect(s, cwd, Rm(Some(t), false), now) == (s, Err(NotEmpty(ResolvePath(cwd, t))))
  {
    DeleteNotEmpty(s, ResolvePath(cwd, t));
  }

  /** `mkdir` never creates missing parents: it fails and changes nothing. */
  lemma MkdirNoParents(s: State, cwd: string, t: string, now: nat)
    requires var p := ResolvePath(cwd, t);
      NormalizePath(p) == p && p !in s.files && Parent(p).Some? &&
      Parent(p).value !in s.files && Parent(p).value != "" && Parent(p).value != "/"
    ensures var p := ResolvePath(cwd, t);
      Effect(s, cwd, Mkdir(Some(t)), now) == (s, Err(ParentMissing(Parent(p).value)))
  {
    CreateDirParentMissing(s, ResolvePath(cwd, t), now);
  }

  /** A successful `touch` leaves an empty file, even where a file with content was. */
  lemma TouchEmpties(s: State, cwd: string, t: string, now: nat)
    requires Effect(s, cwd, Touch(Some(t)), now).1.Ok?
    ensures Read(Effect(s, cwd, Touch(Some(t)), now).0, ResolvePath(cwd, t)) == Ok("")
  {
    TouchOutcome(s, cwd, [], t, [], now);
    ReadBack(s, ResolvePath(cwd, t), "", now);
  }

  /** The directory `ls` lists: its operand resolved, or else the working directory as it is. */
  function LsPath(cwd: string, dir: Option<string>): string {
    if dir.Some? then ResolvePath(cwd, dir.value) else cwd
  }

  /** An error line: the command's name, ": ", the file system's message. */
  function Failure(name: string, e: FsError): Output {
    ErrorOutput(name + ": " + Message(e))
  }

  /** The lines a command adds to the scroll-back after its prompt line, given the file system
      `s` and working directory `cwd` it starts from and the history after it was recorded;
      `listed` is the metadata `ls` received, in the order of the listing. `clear` adds none
      but empties the whole scroll-back. */
  function Reply(s: State, cwd: string, history: seq<string>, inv: Invocation, listed: seq<Metadata>, now: nat): seq<Output> {
    match inv
    case Help => [StandardOutput(HelpText)]
    case Cd(t) =>
      var r := Listing(s.files, ResolvePath(cwd, t));
      if r.Ok? then [] else [Failure("cd", r.error)]
    case Pwd => [StandardOutput(cwd)]
    case Ls(d) =>
      var r := Listing(s.files, LsPath(cwd, d));
      if r.Ok? then [StandardOutput(ListingLines(listed))] else [Failure("ls", r.error)]
    case Cat(None) => [ErrorOutput("cat: missing file operand")]
    case Cat(Some(f)) =>
      var r := Read(s, ResolvePath(cwd, f));
      if r.Ok? then [StandardOutput(r.value)] else [Failure("cat", r.error)]
    case Echo(t) => [StandardOutput(t)]
    case Clear => []
    case Mkdir(None) => [ErrorOutput("mkdir: missing directory operand")]
    case Touch(None) => [ErrorOutput("touch: missing file operand")]
    case Rm(None, _) => [ErrorOutput("rm: missing operand")]
    case Mkdir(Some(_)) =>
      var r := Effect(s, cwd, inv, now).1;
      if r.Ok? then [] else [Failure("mkdir", r.error)]
    case Touch(Some(_)) =>
      var r := Effect(s, cwd, inv, now).1;
      if r.Ok? then [] else [Failure("touch", r.error)]
    case Rm(Some(_), _) =>
      var r := Effect(s, cwd, inv, now).1;
      if r.Ok? then [] else [Failure("rm", r.error)]
    case ShowHistory =>
      if history == [] then [StandardOutput("No command history")]
      else [StandardOutput(HistoryHeading + HistoryLines(history))]
    case Unknown(name) => [ErrorOutput("Unknown command: " + name)]
  }

  /** The last line `history` prints shows the latest entry. */
  lemma HistoryLinesEnd(h: seq<string>)
    requires h != []
    ensures EndsWith(HistoryLines(h), ": " + h[|h| - 1])
  {
    var last := ": " + h[|h| - 1];
    var line := HistoryLine(|h|, h[|h| - 1]);
    EndsWithAppend("\n" + NatToString(|h|), last);
    EndsWithExtend(HistoryLines(h[..|h| - 1]), line, last);
  }

  /** A non-blank command is the latest entry once recorded. */
  lemma RecordedLast(h: seq<string>, command: string)
    requires |h| <= MaxHistory && command != [] && !IsWhitespace(command[0])
    ensures var r := Record(h, command); r != [] && r[|r| - 1] == command
  {
    TrimSpec(command);
    RecordSpec(h, command);
  }

  /** Once a non-blank command is recorded, `history` lists it as its last line; since a
      command is recorded before it runs, `history` always lists at least itself. */
  lemma RecordedCommandListed(s: State, cwd: string, h: seq<string>, command: string, listed: seq<Metadata>, now: nat)
    requires |h| <= MaxHistory && command != [] && !IsWhitespace(command[0])
    ensures var r := Record(h, command);
      r != [] && Reply(s, cwd, r, ShowHistory, listed, now) == [StandardOutput(HistoryHeading + HistoryLines(r))] &&
      EndsWith(HistoryLines(r), ": " + command)
  {
    RecordedLast(h, command);
    var r := Record(h, command);
    ReplyShowsHistory(s, cwd, r, listed, now);
    HistoryLinesEnd(r);
  }

  /** With a non-empty history, `history` prints the heading and one line per entry. */
  lemma ReplyShowsHistory(s: State, cwd: string, h: seq<string>, listed: seq<Metadata>, now: nat)
    requires h != []
    ensures Reply(s, cwd, h, ShowHistory, listed, now) == [StandardOutput(HistoryHeading + HistoryLines(h))]
  {
  }

  /** As written, `history` can only ever print "No command history". */
  lemma AsWrittenHistoryEmpty(s: State, cwd: string, commands: seq<string>, listed: seq<Metadata>, now: nat)
    ensures Reply(s, cwd, RecordAllAsWritten([], commands), ShowHistory, listed, now) ==
      [StandardOutput("No command history")]
  {
    AsWrittenNeverRecords(commands);
  }
}
