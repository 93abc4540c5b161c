/** The file compressor of `src/components/file_compressor.rs`: a browser of the shared file
    system that keeps a selection of paths, writes a simulated archive listing them, and
    "extracts" such an archive into a new directory holding a sample file. The archive format,
    the derived paths and the outcome of each step are functions; the component, whose handlers
    update its fields in place, is the class FileCompressor. */
module Compressor {
  import opened Text
  import opened FsModel
  import opened FsPaths
  import opened FsProps
  import opened Filesystem

  /** The first line of every simulated archive. */
  const Magic: string := "SIMULATED ZIP ARCHIVE"

  const InitialDirectory: string := "/home"
  const DefaultArchiveName: string := "archive.zip"

  /** The content of the sample file an extraction writes. */
  const ReadmeText: string :=
    "This is a simulated extracted file.\nIn a real implementation, the actual files would be extracted here."

  /** `status_message`: the text shown and whether it reports an error. */
  datatype Status = Status(message: string, isError: bool)

  // ---------------------------------------------------------------------------------------
  // The selection

  /** `Vec::retain` keeping every path but `f`, in order. */
  function Without(s: seq<string>, f: string): (r: seq<string>)
    ensures |r| <= |s|
    ensures forall x :: x in r <==> x in s && x != f
  {
    if s == [] then [] else (if s[0] == f then [] else [s[0]]) + Without(s[1..], f)
  }

  /** Removing a path that is not there changes nothing. */
  lemma {:induction false} WithoutAbsent(s: seq<string>, f: string)
    requires f !in s
    ensures Without(s, f) == s
  {
    if s != [] {
      assert f !in s[1..];
      WithoutAbsent(s[1..], f);
      assert s == [s[0]] + s[1..];
    }
  }

  /** Removing `f` from a list that ends with it drops that last element and removes `f` from
      the rest. */
  lemma {:induction false} WithoutAppend(s: seq<string>, f: string)
    ensures Without(s + [f], f) == Without(s, f)
  {
    if s == [] {
      assert Without([f], f) == [] + Without([], f);
    } else {
      assert (s + [f])[1..] == s[1..] + [f];
      WithoutAppend(s[1..], f);
    }
  }

  /** The selection after `ToggleFileSelection(f)`: `f` is removed when present and appended
      when absent. */
  function Toggled(s: seq<string>, f: string): seq<string> {
    if f in s then Without(s, f) else s + [f]
  }

  predicate NoDuplicates(s: seq<string>) {
    forall i, j :: 0 <= i < j < |s| ==> s[i] != s[j]
  }

  lemma {:induction false} WithoutKeepsNoDuplicates(s: seq<string>, f: string)
    requires NoDuplicates(s)
    ensures NoDuplicates(Without(s, f))
  {
    if s != [] {
      assert NoDuplicates(s[1..]) by {
        forall i, j | 0 <= i < j < |s[1..]| ensures s[1..][i] != s[1..][j] {
          assert s[1..][i] == s[i + 1] && s[1..][j] == s[j + 1];
        }
      }
      WithoutKeepsNoDuplicates(s[1..], f);
      var rest := Without(s[1..], f);
      assert s[0] !in s[1..] by {
        forall i | 0 <= i < |s[1..]| ensures s[1..][i] != s[0] {
          assert s[1..][i] == s[i + 1];
        }
      }
      assert s[0] !in rest;
    }
  }

  /** Toggling flips the membership of `f` and of nothing else, and never creates a
      duplicate. */
  lemma ToggleSpec(s: seq<string>, f: string)
    ensures f in Toggled(s, f) <==> f !in s
    ensures forall x :: x != f ==> (x in Toggled(s, f) <==> x in s)
    ensures NoDuplicates(s) ==> NoDuplicates(Toggled(s, f))
  {
    if NoDuplicates(s) {
      if f in s {
        WithoutKeepsNoDuplicates(s, f);
      } else {
        var t := s + [f];
        forall i, j | 0 <= i < j < |t| ensures t[i] != t[j] {
          if j == |s| {
            assert t[i] == s[i];
          }
        }
      }
    }
  }

  /** Toggling an unselected path twice restores the selection exactly. */
  lemma ToggleTwice(s: seq<string>, f: string)
    requires f !in s
    ensures Toggled(Toggled(s, f), f) == s
  {
    assert f in s + [f];
    WithoutAppend(s, f);
    WithoutAbsent(s, f);
  }

  // ---------------------------------------------------------------------------------------
  // Archives

  /** The archive's file name: the name as typed, with ".zip" added unless it ends so. */
  function ZipName(name: string): string {
    if EndsWith(name, ".zip") then name else name + ".zip"
  }

  /** The file name always ends with ".zip", and a name that does is kept as it is. */
  lemma ZipNameSpec(name: string)
    ensures EndsWith(ZipName(name), ".zip")
    ensures EndsWith(name, ".zip") ==> ZipName(name) == name
  {
    if !EndsWith(name, ".zip") {
      EndsWithAppend(name, ".zip");
    }
  }

  lemma ZipNameNoSlash(name: string)
    requires '/' !in name
    ensures '/' !in ZipName(name)
  {
  }

  /** The archive path as written: directory, '/', file name, which doubles the separator in
      the root directory. */
  function ArchivePathAsWritten(cwd: string, name: string): string {
    cwd + "/" + ZipName(name)
  }

  /** The archive path: the file name inside the current directory, with one separator. */
  function ArchivePath(cwd: string, name: string): string {
    DirPrefix(cwd) + ZipName(name)
  }

  /** The archive path ends with ".zip". */
  lemma ArchivePathZip(cwd: string, name: string)
    ensures EndsWith(ArchivePath(cwd, name), ".zip")
  {
    ZipNameSpec(name);
    EndsWithExtend(DirPrefix(cwd), ZipName(name), ".zip");
  }

  /** The default name already ends with ".zip" and is kept as it is. */
  lemma DefaultNameKept()
    ensures ZipName(DefaultArchiveName) == DefaultArchiveName
  {
    EndsWithAppend("archive", ".zip");
    assert DefaultArchiveName == "archive" + ".zip";
    ZipNameSpec(DefaultArchiveName);
  }

  /** In the root directory the path as written has a doubled separator, so `list_directory`
      of the root never lists it, while `ArchivePath` has a single one. */
  lemma RootArchiveAsWrittenHidden(name: string)
    ensures ArchivePathAsWritten("/", name) == "//" + ZipName(name)
    ensures !IsDirectChild("/", ArchivePathAsWritten("/", name))
    ensures ArchivePath("/", name) == "/" + ZipName(name)
  {
    assert EndsWith("/", "/");
    var k := ArchivePathAsWritten("/", name);
    assert k[|DirPrefix("/")|..][0] == '/';
  }

  /** The default archive in the root is written to "//archive.zip", hidden from the root's
      listing, where "/archive.zip" is intended. */
  lemma RootArchiveHidden()
    ensures ArchivePathAsWritten("/", DefaultArchiveName) == "//archive.zip"
    ensures !IsDirectChild("/", "//archive.zip")
    ensures ArchivePath("/", DefaultArchiveName) == "/archive.zip"
  {
    DefaultNameKept();
    RootArchiveAsWrittenHidden(DefaultArchiveName);
  }

  /** "//archive.zip" is its own normal form. */
  lemma RootArchiveNormal()
    ensures NormalizePath("//archive.zip") == "//archive.zip"
  {
    var k := "//archive.zip";
    assert k[0] == '/' && k[|k| - 1] == 'p';
    TrimSpec(k);
  }

  /** The last '/' of "//archive.zip" is its second character. */
  lemma RootArchiveLastSlash()
    ensures LastSlash("//archive.zip") == Some(1)
  {
    assert "//archive.zip" == "//" + "archive.zip";
    LastSlashSplit("//", "archive.zip");
  }

  /** The parent of "//archive.zip" is "/" and its name "archive.zip". */
  lemma RootArchiveKey()
    ensures Parent("//archive.zip") == Some("/") && FileName("//archive.zip") == Some("archive.zip")
  {
    var k := "//archive.zip";
    RootArchiveLastSlash();
    assert k[..1] == "/" && k[2..] == "archive.zip";
  }

  /** With storage available, writing the default archive in the root succeeds, since the
      parent of "//archive.zip" is "/", and stores it under a key the root's listing skips. */
  lemma RootArchiveStoredHidden(s: State, content: string, now: nat)
    requires s.available
    ensures var (s1, r) := Write(s, ArchivePathAsWritten("/", DefaultArchiveName), content, now);
      r.Ok? && "//archive.zip" in s1.files && "//archive.zip" !in Children(s1.files, "/")
  {
    RootArchiveHidden();
    RootArchiveNormal();
    RootArchiveKey();
    var k := "//archive.zip";
    var created := if k in s.files then s.files[k].created else now;
    var files := s.files[k := Metadata("archive.zip", File, Utf8Len(content), created, now)];
    var s2 := s.(files := files, store := s.store[ContentKey(k) := Blob(content)]);
    assert WriteAt(s, k, content, now) == Save(s2);
  }

  /** Away from the root, and any directory not ending in '/', both paths agree. */
  lemma AsWrittenAgreesOffRoot(cwd: string, name: string)
    requires !EndsWith(cwd, "/")
    ensures ArchivePathAsWritten(cwd, name) == ArchivePath(cwd, name)
  {
  }

  /** An archive named without '/' inside a well-formed directory is a well-formed path that
      the directory lists. */
  lemma ArchiveListed(cwd: string, name: string)
    requires WellFormed(cwd) && '/' !in name
    ensures var k := ArchivePath(cwd, name); WellFormed(k) && Parent(k) == Some(cwd) && IsDirectChild(cwd, k)
  {
    var z := ZipName(name);
    ZipNameSpec(name);
    ZipNameNoSlash(name);
    assert z[|z| - 1] == 'p' by {
      assert z[|z| - 4..] == ".zip";
      assert z[|z| - 1] == z[|z| - 4..][3];
    }
    ChildPath(cwd, z, DirPrefix(cwd) + z);
    ChildIffParent(cwd, DirPrefix(cwd) + z);
  }

  /** A line of text: `s` followed by a newline. */
  function Line(s: string): string {
    s + "\n"
  }

  lemma LineCount(s: string)
    requires '\n' !in s
    ensures Count(Line(s), '\n') == 1
  {
    CountAbsent(s, '\n');
    CountConcat(s, "\n", '\n');
  }

  /** One " - path" line per selected path, in order. */
  function FileLines(selected: seq<string>): string {
    if selected == [] then "" else Line(" - " + selected[0]) + FileLines(selected[1..])
  }

  /** The archive's three header lines: the magic line, the creation date, "Files:". */
  function Header(date: string): string {
    Line(Magic) + Line("Created: " + date) + Line("Files:")
  }

  /** The archive text: the header, then the lines naming the selected paths. */
  function ArchiveContent(date: string, selected: seq<string>): string {
    Header(date) + FileLines(selected)
  }

  lemma {:induction false} FileLinesCount(selected: seq<string>)
    requires forall i :: 0 <= i < |selected| ==> '\n' !in selected[i]
    ensures Count(FileLines(selected), '\n') == |selected|
  {
    if selected != [] {
      assert '\n' !in " - " + selected[0];
      LineCount(" - " + selected[0]);
      FileLinesCount(selected[1..]);
      CountConcat(Line(" - " + selected[0]), FileLines(selected[1..]), '\n');
    }
  }

  lemma MagicOneLine()
    ensures '\n' !in Magic && '\n' !in "Files:"
  {
  }

  lemma HeaderCount(date: string)
    requires '\n' !in date
    ensures Count(Header(date), '\n') == 3
  {
    MagicOneLine();
    LineCount(Magic);
    assert '\n' !in "Created: " + date;
    LineCount("Created: " + date);
    LineCount("Files:");
    CountConcat(Line(Magic), Line("Created: " + date), '\n');
    CountConcat(Line(Magic) + Line("Created: " + date), Line("Files:"), '\n');
  }

  lemma StartsWithMagic(date: string, selected: seq<string>)
    ensures StartsWith(ArchiveContent(date, selected), Magic)
  {
    var c := ArchiveContent(date, selected);
    assert c == Magic + ("\n" + Line("Created: " + date) + Line("Files:") + FileLines(selected));
    assert c[..|Magic|] == Magic;
  }

  /** An archive starts with the magic line, and has three header lines and then exactly one
      line per selected path. */
  lemma ArchiveContentSpec(date: string, selected: seq<string>)
    requires '\n' !in date && forall i :: 0 <= i < |selected| ==> '\n' !in selected[i]
    ensures StartsWith(ArchiveContent(date, selected), Magic)
    ensures Count(ArchiveContent(date, selected), '\n') == 3 + |selected|
  {
    StartsWithMagic(date, selected);
    HeaderCount(date);
    FileLinesCount(selected);
    CountConcat(Header(date), FileLines(selected), '\n');
  }

  /** A written archive reads back as written, so extraction recognises it. */
  lemma ArchiveRoundTrip(s: State, cwd: string, name: string, date: string, selected: seq<string>, now: nat)
    requires Write(s, ArchivePath(cwd, name), ArchiveContent(date, selected), now).1.Ok?
    ensures var s1 := Write(s, ArchivePath(cwd, name), ArchiveContent(date, selected), now).0;
      Read(s1, ArchivePath(cwd, name)) == Ok(ArchiveContent(date, selected)) &&
      StartsWith(ArchiveContent(date, selected), Magic)
  {
    ReadBack(s, ArchivePath(cwd, name), ArchiveContent(date, selected), now);
    StartsWithMagic(date, selected);
  }

  // ---------------------------------------------------------------------------------------
  // Extraction

  /** The index of the last '.' in `s`, if any. */
  function LastDot(s: string): (r: Option<nat>)
    ensures r.Some? ==> r.value < |s| && s[r.value] == '.'
  {
    if s == [] then None
    else if s[|s| - 1] == '.' then Some(|s| - 1)
    else LastDot(s[..|s| - 1])
  }

  /** `Path::file_stem`: the file name without its last extension; a name whose only '.' is
      its first character is its own stem. */
  function FileStem(path: string): Option<string> {
    match FileName(path)
    case None => None
    case Some(n) =>
      var d := LastDot(n);
      Some(if d.None? || d.value == 0 then n else n[..d.value])
  }

  /** The name of the extraction directory's stem: the archive's stem, or "extracted". */
  function ExtractStem(path: string): string {
    match FileStem(path) case Some(stem) => stem case None => "extracted"
  }

  /** The extraction directory as written: directory, '/', stem, "_extracted". */
  function ExtractDirAsWritten(cwd: string, stem: string): string {
    cwd + "/" + stem + "_extracted"
  }

  /** The extraction directory, with one separator after the current directory. */
  function ExtractDir(cwd: string, stem: string): string {
    DirPrefix(cwd) + stem + "_extracted"
  }

  /** In the root directory the extraction directory as written has a doubled separator too,
      so the root's listing would not show it; `ExtractDir` has a single one. */
  lemma RootExtractDirHidden(stem: string)
    ensures ExtractDirAsWritten("/", stem) == "//" + stem + "_extracted"
    ensures !IsDirectChild("/", ExtractDirAsWritten("/", stem))
    ensures ExtractDir("/", stem) == "/" + stem + "_extracted"
  {
    assert EndsWith("/", "/");
    var k := ExtractDirAsWritten("/", stem);
    assert k[|DirPrefix("/")|..][0] == '/';
  }

  /** The sample file written into the extraction directory. */
  function ReadmePath(dir: string): string {
    dir + "/README.txt"
  }

  /** The outcome of an `update` arm that may panic. */
  datatype Step<T> = Panicked | Done(value: T)

  /** `ExtractArchive` as written: the shared borrow taken to read the archive belongs to the
      scrutinee of the `match` and lives until the `match` ends, so the mutable borrow that
      `create_directory` needs always panics (`RefCell::borrow_mut` fails while a shared
      borrow is outstanding). */
  function ExtractAsWritten(s: State, cwd: string, path: string, now: nat): Step<(State, Status)> {
    match Read(s, path)
    case Err(e) => Done((s, Status("Failed to read archive: " + Message(e), true)))
    case Ok(content) =>
      if !StartsWith(content, Magic) then Done((s, Status("Not a valid zip archive", true)))
      else Panicked
  }

  /** As written, extracting any valid archive panics before creating anything. */
  lemma ExtractAsWrittenPanics(s: State, cwd: string, path: string, now: nat)
    requires Read(s, path).Ok? && StartsWith(Read(s, path).value, Magic)
    ensures ExtractAsWritten(s, cwd, path, now) == Panicked
  {
  }

  /** ... so an archive the compressor has just written can never be extracted. */
  lemma FreshArchivePanics(s: State, cwd: string, name: string, date: string, selected: seq<string>, now: nat, later: nat)
    requires Write(s, ArchivePath(cwd, name), ArchiveContent(date, selected), now).1.Ok?
    ensures var s1 := Write(s, ArchivePath(cwd, name), ArchiveContent(date, selected), now).0;
      ExtractAsWritten(s1, cwd, ArchivePath(cwd, name), later) == Panicked
  {
    ArchiveRoundTrip(s, cwd, name, date, selected, now);
  }

  /** `ExtractArchive` as intended, with the read borrow released first: a readable archive
      starting with the magic line gets a directory `<stem>_extracted` in the current
      directory, created with its parents, holding README.txt. */
  function Extract(s: State, cwd: string, path: string, now: nat): (State, Status) {
    match Read(s, path)
    case Err(e) => (s, Status("Failed to read archive: " + Message(e), true))
    case Ok(content) =>
      if !StartsWith(content, Magic) then (s, Status("Not a valid zip archive", true))
      else
        var dir := ExtractDir(cwd, ExtractStem(path));
        var (s1, r1) := CreateDir(s, dir, true, now);
        if r1.Err? then (s1, Status("Failed to create extraction directory: " + Message(r1.error), true))
        else
          var (s2, r2) := Write(s1, ReadmePath(dir), ReadmeText, now);
          if r2.Err? then (s2, Status("Failed to create extracted file: " + Message(r2.error), true))
          else (s2, Status("Extracted to: " + dir, false))
  }

  /** Anything but a readable archive changes nothing and reports an error. */
  lemma ExtractRejects(s: State, cwd: string, path: string, now: nat)
    requires Read(s, path).Err? || !StartsWith(Read(s, path).value, Magic)
    ensures Extract(s, cwd, path, now).0 == s && Extract(s, cwd, path, now).1.isError
  {
  }

  /** A successful extraction leaves README.txt, with its text, in the directory it names. */
  lemma ExtractCreatesReadme(s: State, cwd: string, path: string, now: nat)
    requires !Extract(s, cwd, path, now).1.isError
    ensures var dir := ExtractDir(cwd, ExtractStem(path));
      Extract(s, cwd, path, now).1.message == "Extracted to: " + dir &&
      Read(Extract(s, cwd, path, now).0, ReadmePath(dir)) == Ok(ReadmeText)
  {
    var dir := ExtractDir(cwd, ExtractStem(path));
    var (s1, r1) := CreateDir(s, dir, true, now);
    var (s2, r2) := Write(s1, ReadmePath(dir), ReadmeText, now);
    assert Read(s, path).Ok? && StartsWith(Read(s, path).value, Magic);
    assert r1.Ok? && r2.Ok?;
    assert Extract(s, cwd, path, now) == (s2, Status("Extracted to: " + dir, false));
    ReadBack(s1, ReadmePath(dir), ReadmeText, now);
  }

  /** Where the component goes on `NavigateUp`: the parent of the current directory, or "/"
      when it has none. */
  function UpTarget(cwd: string): string {
    match Parent(cwd) case Some(p) => p case None => "/"
  }

  /** Going up from a well-formed directory other than the root reaches a well-formed directory
      of which it is a direct child; the root goes to itself. */
  lemma UpTargetSpec(cwd: string)
    requires WellFormed(cwd)
    ensures cwd == "/" ==> UpTarget(cwd) == "/"
    ensures cwd != "/" ==> WellFormed(UpTarget(cwd)) && IsDirectChild(UpTarget(cwd), cwd)
  {
    if cwd != "/" {
      ParentWellFormed(cwd);
      ChildIffParent(UpTarget(cwd), cwd);
    }
  }

  class FileCompressor {
    /** The file system, shared with the other components. */
    const fs: FileSystem
    var currentDirectory: string
    var selectedFiles: seq<string>
    var archiveName: string
    var statusMessage: Option<Status>

    /** The selection never holds a path twice. */
    ghost predicate Valid()
      reads this
    {
      NoDuplicates(selectedFiles)
    }

    /** `create`. */
    constructor (fs: FileSystem)
      ensures Valid()
      ensures this.fs == fs && currentDirectory == InitialDirectory && selectedFiles == [] &&
        archiveName == DefaultArchiveName && statusMessage == None
    {
      this.fs := fs;
      currentDirectory := InitialDirectory;
      selectedFiles := [];
      archiveName := DefaultArchiveName;
      statusMessage := None;
    }

    /** `NavigateTo`: moves to a directory that lists, clearing the selection; otherwise
        reports the error and stays. */
    method NavigateTo(path: string)
      requires Valid()
      modifies this
      ensures Valid()
      ensures archiveName == old(archiveName)
      ensures Listing(fs.files, path).Ok? ==>
        currentDirectory == path && selectedFiles == [] && statusMessage == old(statusMessage)
      ensures Listing(fs.files, path).Err? ==>
        currentDirectory == old(currentDirectory) && selectedFiles == old(selectedFiles) &&
        statusMessage == Some(Status("Error: " + Message(Listing(fs.files, path).error), true))
    {
      var r, _ := fs.ListDirectory(path);
      if r.Ok? {
        currentDirectory := path;
        selectedFiles := [];
      } else {
        statusMessage := Some(Status("Error: " + Message(r.error), true));
      }
    }

    /** `NavigateUp`: navigates to the parent of the current directory, or to the root. */
    method NavigateUp()
      requires Valid()
      modifies this
      ensures Valid()
      ensures archiveName == old(archiveName)
      ensures var up := UpTarget(old(currentDirectory));
        Listing(fs.files, up).Ok? ==>
          currentDirectory == up && selectedFiles == [] && statusMessage == old(statusMessage)
      ensures var up := UpTarget(old(currentDirectory));
        Listing(fs.files, up).Err? ==>
          currentDirectory == old(currentDirectory) && selectedFiles == old(selectedFiles) &&
          statusMessage == Some(Status("Error: " + Message(Listing(fs.files, up).error), true))
    {
      var up := match Parent(currentDirectory) case Some(p) => p case None => "/";
      NavigateTo(up);
    }

    /** `Refresh`: dismisses the status message. */
    method Refresh()
      requires Valid()
      modifies this
      ensures Valid()
      ensures statusMessage == None
      ensures currentDirectory == old(currentDirectory) && selectedFiles == old(selectedFiles) &&
        archiveName == old(archiveName)
    {
      statusMessage := None;
    }

    /** `ClearMessage`: dismisses the status message. */
    method ClearMessage()
      requires Valid()
      modifies this
      ensures Valid()
      ensures statusMessage == None
      ensures currentDirectory == old(currentDirectory) && selectedFiles == old(selectedFiles) &&
        archiveName == old(archiveName)
    {
      statusMessage := None;
    }

    /** `ToggleFileSelection`: deselects a selected path, selects (appends) another. */
    method ToggleFileSelection(path: string)
      requires Valid()
      modifies this
      ensures Valid()
      ensures selectedFiles == Toggled(old(selectedFiles), path)
      ensures currentDirectory == old(currentDirectory) && archiveName == old(archiveName) &&
        statusMessage == old(statusMessage)
    {
      ToggleSpec(selectedFiles, path);
      if path in selectedFiles {
        selectedFiles := Without(selectedFiles, path);
      } else {
        selectedFiles := selectedFiles + [path];
      }
    }

    /** `UpdateArchiveName`. */
    method UpdateArchiveName(name: string)
      requires Valid()
      modifies this
      ensures Valid()
      ensures archiveName == name
      ensures currentDirectory == old(currentDirectory) && selectedFiles == old(selectedFiles) &&
        statusMessage == old(statusMessage)
    {
      archiveName := name;
    }

    /** `CompressFiles`: with nothing selected, reports it; otherwise writes the archive of the
        selection, dated `date`, to the path as written (directory, '/', file name), and on
        success reports that path and clears the selection, on failure reports the error and
        keeps the selection. */
    method CompressFiles(date: string, now: nat)
      requires Valid()
      modifies this, fs
      ensures Valid()
      ensures currentDirectory == old(currentDirectory) && archiveName == old(archiveName)
      ensures old(selectedFiles) == [] ==>
        selectedFiles == [] && fs.Model() == old(fs.Model()) &&
        statusMessage == Some(Status("No files selected for compression", true))
      ensures var path := ArchivePathAsWritten(currentDirectory, archiveName);
        var w := Write(old(fs.Model()), path, ArchiveContent(date, old(selectedFiles)), now);
        old(selectedFiles) != [] ==>
          fs.Model() == w.0 &&
          (w.1.Ok? ==> selectedFiles == [] && statusMessage == Some(Status("Successfully created archive: " + path, false))) &&
          (w.1.Err? ==>
            selectedFiles == old(selectedFiles) &&
            statusMessage == Some(Status("Failed to create archive: " + Message(w.1.error), true)))
    {
      if selectedFiles == [] {
        statusMessage := Some(Status("No files selected for compression", true));
        return;
      }
      var path := ArchivePathAsWritten(currentDirectory, archiveName);
      var content := ArchiveContent(date, selectedFiles);
      ghost var w := Write(fs.Model(), path, content, now);
      var r := fs.WriteFile(path, content, now);
      assert fs.Model() == w.0 && r == w.1;
      if r.Ok? {
        statusMessage := Some(Status("Successfully created archive: " + path, false));
        selectedFiles := [];
      } else {
        statusMessage := Some(Status("Failed to create archive: " + Message(r.error), true));
      }
    }

    /** `ExtractArchive`, with the read borrow released before the file system is changed. */
    method ExtractArchive(path: string, now: nat)
      requires Valid()
      modifies this, fs
      ensures Valid()
      ensures currentDirectory == old(currentDirectory) && selectedFiles == old(selectedFiles) &&
        archiveName == old(archiveName)
      ensures var (s, status) := Extract(old(fs.Model()), currentDirectory, path, now);
        fs.Model() == s && statusMessage == Some(status)
    {
      var read := fs.ReadFile(path);
      if read.Err? {
        statusMessage := Some(Status("Failed to read archive: " + Message(read.error), true));
        return;
      }
      if !StartsWith(read.value, Magic) {
        statusMessage := Some(Status("Not a valid zip archive", true));
        return;
      }
      var dir := ExtractDir(currentDirectory, ExtractStem(path));
      var created := fs.CreateDirectory(dir, true, now);
      if created.Err? {
        statusMessage := Some(Status("Failed to create extraction directory: " + Message(created.error), true));
        return;
      }
      var written := fs.WriteFile(ReadmePath(dir), ReadmeText, now);
      if written.Err? {
        statusMessage := Some(Status("Failed to create extracted file: " + Message(written.error), true));
      } else {
        statusMessage := Some(Status("Extracted to: " + dir, false));
      }
    }
  }
}
