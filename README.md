# A verified model of the kernelos2 desktop core

kernelos2 is a desktop environment that runs in the browser. It is built from components that
share one in-memory file system, persisted to the browser's local storage. This project models
four parts of it in Dafny and proves properties of the model:

- **The file system** (`src/filesystem.rs`). An index maps paths to metadata: name, type, size,
  creation time and modification time. After each change the whole index is saved under one
  storage key, and each file's text is stored under a key of its own.
  - Module `FsModel` states every operation as a function over a `State`. A state holds the
    index, the storage map and whether storage is available. The operations are `new`, `save`,
    `list_directory`, `create_directory`, `write_file`, `read_file`, `delete` and
    `normalize_path`.
  - Module `FsPaths` proves facts about the string paths.
  - Module `FsProps` proves what the operations promise. The index stays a tree. Missing parents
    are created. A write is read back. A recursive delete removes exactly the subtree and the
    subtree's file contents.
  - Module `Filesystem` holds the `FileSystem` class. Its methods update the index and the
    storage in place. Each method is proved to reach the state, and return the result, that the
    matching function gives.
- **The terminal** (`src/components/terminal.rs`).
  - Module `TerminalModel` holds the value-level rules. These cover path resolution against the
    working directory and the history of at most 50 commands. They also cover command-name
    completion, reading a command line as a command, and each command's effect on the working
    directory, the file system and the scroll-back.
  - Module `Terminal` holds the component as a class. Its handlers are `InputChanged`,
    `Submit` (the `ExecuteCommand` message), `ArrowUp`, `ArrowDown` and `Tab`, and it has
    `execute_command`.
- **The desktop** (`src/components/desktop.rs`). This is the window table: window ids drawn from
  a counter, the cascade position of new windows, focus, minimise and restore, close, the
  context menu, opening a file and the background colour. The class keeps three invariants.
  The table's keys are the windows' ids. Every id was issued before the counter's current value.
  Exactly the active window is focused.
- **The file compressor** (`src/components/file_compressor.rs`). This covers navigation, the
  selection of files (a list without repeats), the archive's name, path and text, and
  extraction.

The system's clock (`js_sys::Date::now` and the date string) is a `now` or `date` parameter. The
host's local storage is the `store` map together with the `available` flag.

Two behaviours of the code a reader may not expect:

- `write_file` inserts the index entry before it stores the text. When storage is unavailable,
  the in-memory index has already changed by the time the error is returned.
- `write_file` on a path that holds a directory replaces the directory with a file.

## Model

| member | source | states |
|---|---|---|
| Text.TrimSpec | src/components/terminal.rs:63 | The trimmed command is empty exactly when the input is all whitespace. Otherwise it starts and ends with a non-space. An input already in that form is kept. |
| Text.Words | src/components/terminal.rs:306 | Splitting on whitespace gives words that are non-empty and contain no whitespace. The result is empty exactly when the line is all whitespace. |
| Text.Utf8Len | src/filesystem.rs:198-204 | A file's recorded size is its UTF-8 byte length. It lies between the character count and four times that, and is 0 only for empty contents. |
| FsModel.NormalizePath | src/filesystem.rs:303-317 | A normalized path is never empty and is no longer than a non-empty input. |
| FsModel.NormalizeSpec | src/filesystem.rs:303-317 | A normalized path has no surrounding whitespace, and normalizing it again changes nothing. |
| FsPaths.NormalizeWellFormed | src/filesystem.rs:303-317 | Normalization leaves a well-formed absolute path unchanged. |
| FsPaths.NormalizeBlank | src/filesystem.rs:304-307 | An empty or all-whitespace path normalizes to the root "/". |
| FsPaths.ChildIffParent | src/filesystem.rs:106-117 | Between well-formed paths, the prefix test of `list_directory` holds exactly when the entry's parent is the listed directory. |
| FsPaths.DescendantTransitive | src/filesystem.rs:261-271 | A child of an entry below a directory is itself below that directory. |
| FsPaths.ContentKeyInjective | src/filesystem.rs:207-210 | Different paths have different content keys, and no content key is the index key. |
| FsProps.ListingIsParentOf | src/filesystem.rs:92-120 | On a tree-shaped index, listing a directory gives exactly the entries whose parent it is. |
| FsProps.ListingErrors | src/filesystem.rs:96-103 | Listing a missing path fails with "does not exist". Listing a file fails with "is not a directory". |
| FsProps.AddDirectoryAdds | src/filesystem.rs:153-167 | Inserting a directory keeps every other entry unchanged and adds at most the new path. On success the path is present. |
| FsProps.CreateDirGrows | src/filesystem.rs:122-169 | `create_directory` never removes or alters an existing entry. On success the directory exists. |
| FsProps.CreateDirErrorUnchanged | src/filesystem.rs:122-169 | Every failure other than unavailable storage leaves the state untouched. |
| FsProps.CreateRootRejected | src/filesystem.rs:122-128 | A blank path means the root, which already exists, so it is rejected. |
| FsProps.CreateDirParentMissing | src/filesystem.rs:140-150 | Without `create_parents`, a missing parent other than "" or "/" is reported and nothing changes. |
| FsProps.CreateDirAtStep | src/filesystem.rs:130-139 | With `create_parents`, a missing parent is created first. An error there ends the call; otherwise the directory itself is added. |
| FsProps.CreateDirKeepsTree | src/filesystem.rs:122-169 | `create_directory` keeps the index a tree: every entry but the root has its parent in the index. |
| FsProps.CreateDirAddsMissingAncestors | src/filesystem.rs:130-165 | On a tree with storage available, creating with parents succeeds. It adds exactly the path and its missing ancestors, each as a directory with size 0 stamped `now`, and keeps the old entries. |
| FsProps.CreateDirKeys | src/filesystem.rs:130-165 | After creating with parents, the index keys are the old keys plus the path and all its ancestors. |
| FsProps.CreateThreeLevels | src/filesystem.rs:130-139 | Starting from the root alone, creating a three-level path adds exactly its three levels. |
| FsProps.CreateNestedOnRoot | src/filesystem.rs:130-139 | Creating "/a/b/c" with parents on a root-only index leaves exactly "/", "/a", "/a/b" and "/a/b/c". |
| FsProps.CreateDirTwice | src/filesystem.rs:125-128 | Creating the same directory a second time fails with "already exists" and changes nothing. |
| FsProps.WriteKeepsTree | src/filesystem.rs:171-218 | Writing a file keeps the index a tree. |
| FsProps.WriteAddsOnlyPath | src/filesystem.rs:198-204 | A write adds no key other than its own path. |
| FsProps.ReadAfterWrite | src/filesystem.rs:190-215 | After a successful write the entry is a file of the contents' byte size, keeps its old creation time and is modified `now`. Reading it gives the contents. |
| FsProps.ReadBack | src/filesystem.rs:171-243 | Reading a path right after a successful write of it gives what was written. |
| FsProps.WriteParentMissing | src/filesystem.rs:174-182 | Writing under a missing parent other than "" or "/" fails and changes nothing. |
| FsProps.WriteLeavesOthers | src/filesystem.rs:198-215 | A write changes neither the entry of any other path nor what reading that path gives. |
| FsProps.ReadErrors | src/filesystem.rs:220-243 | Reading fails with "does not exist" for a missing path and "is not a file" for a directory. It fails with "Failed to read file" when the content is absent. |
| FsProps.DeleteAbsent | src/filesystem.rs:248-251 | Deleting a missing path fails with "does not exist" and changes nothing. |
| FsProps.DeleteNotEmpty | src/filesystem.rs:255-260 | A non-recursive delete of a directory with children fails with "is not empty" and changes nothing. |
| FsProps.DeleteFiles | src/filesystem.rs:245-300 | The index after `delete` has three cases: unchanged for a refused non-recursive delete, the path and everything below it removed for a recursive one, and just the path removed otherwise. |
| FsProps.DeleteRecursiveUnfold | src/filesystem.rs:261-299 | A recursive delete removes the descendants and the path, drops the descendants' file contents when storage is available, and saves. |
| FsProps.DeleteRecursiveExact | src/filesystem.rs:261-299 | After a recursive delete, an entry remains exactly when it is neither the path nor under the path's prefix. Remaining entries are unchanged, and the call succeeds exactly when storage is available. |
| FsProps.DeleteRecursiveBlobs | src/filesystem.rs:271-280 | A recursive delete removes the stored text of every file below the directory and keeps every other file's text. |
| FsProps.DeleteKeepsSibling | src/filesystem.rs:263-271 | Deleting "/home" recursively keeps "/home2", since the prefix test uses "/home/". |
| FsProps.DeleteRecursiveCoversAll | src/filesystem.rs:261-299 | When every other entry lies under the directory, a recursive delete of it empties the index. |
| FsProps.DeleteRootEmptiesAll | src/filesystem.rs:261-299 | `delete("/", true)` removes every entry, the root included. |
| FsProps.DeleteKeepsTree | src/filesystem.rs:245-300 | Deleting anything but the root keeps the index a tree, unless the path is a File that still has children. |
| FsProps.OverwriteThenDeleteOrphans | src/filesystem.rs:192-204 | `write_file` over a non-empty directory succeeds and leaves a File with children; deleting that File without `recursive` breaks the tree shape. |
| FsProps.DeleteIntendedKeepsTree | src/filesystem.rs:245-300 | With the intended delete, which treats any entry with children like a non-empty directory, deleting anything but the root keeps the index a tree. |
| FsProps.RootOnlyIsTree | src/filesystem.rs:50-56 | The root-only index that `new` starts from is a tree. |
| FsProps.SeedAdds | src/filesystem.rs:59-66 | With storage available, seeding a root-only index with two levels of directories succeeds and leaves exactly the root and the four paths, all directories. |
| FsProps.SeedUnavailable | src/filesystem.rs:59-66 | Without storage, seeding fails with "Local storage not available". |
| FsProps.NewSeeds | src/filesystem.rs:28-69 | With storage available and no stored index, `new` succeeds with exactly "/", "/home", "/home/documents", "/home/pictures" and "/applications". |
| FsProps.NewSeedsDirectories | src/filesystem.rs:28-69 | Every seeded entry is a directory. |
| FsProps.NewIsTree | src/filesystem.rs:28-69 | The seeded index is a tree. |
| FsProps.NewFailsIffUnavailable | src/filesystem.rs:28-69 | `new` fails exactly when storage is unavailable, and then with "Local storage not available". |
| FsProps.NewUnavailable | src/filesystem.rs:28-69 | Without storage, `new` returns the storage error. |
| Filesystem.FileSystem.New | src/filesystem.rs:28-69 | The constructed file system is the stored index when one exists. Otherwise it is the seeded one, and it fails as `new` does. |
| Filesystem.FileSystem.Save | src/filesystem.rs:77-90 | Saving writes a snapshot of the index under the index key, or fails without storage. |
| Filesystem.FileSystem.ListDirectory | src/filesystem.rs:92-120 | The listing fails exactly as `list_directory` does. On success it holds the metadata of each direct child exactly once. |
| Filesystem.FileSystem.CollectChildren | src/filesystem.rs:106-117 | The loop over the index collects each direct child's metadata exactly once. |
| Filesystem.FileSystem.CreateDirectory | src/filesystem.rs:122-169 | The new state and result are those of `create_directory`, recursion into parents included. |
| Filesystem.FileSystem.WriteFile | src/filesystem.rs:171-218 | The new state and result are those of `write_file`. |
| Filesystem.FileSystem.ReadFile | src/filesystem.rs:220-243 | The result is that of `read_file` on the current state. |
| Filesystem.FileSystem.RemoveBlobs | src/filesystem.rs:271-280 | The loop removes the stored text of exactly the files among the doomed paths. |
| Filesystem.FileSystem.RemoveEntries | src/filesystem.rs:282-286 | The loop removes exactly the doomed paths from the index. |
| Filesystem.FileSystem.DeleteEntry | src/filesystem.rs:245-300 | The new state and result are those of `delete`. |
| Filesystem.FileSystem.DeleteDirectory | src/filesystem.rs:253-299 | Deleting a directory reaches the state and result of `delete`'s directory branch. |
| TerminalModel.ResolvePath | src/components/terminal.rs:457-469 | An absolute operand is kept. A relative one is put after the working directory with exactly one '/' between them. |
| TerminalModel.ResolveIdempotent | src/components/terminal.rs:457-469 | Resolving a resolved path again changes nothing, and the result is absolute. |
| TerminalModel.ResolveChild | src/components/terminal.rs:457-469 | A plain name resolves to a well-formed path whose parent is the working directory and whose name is that name. |
| TerminalModel.Cap | src/components/terminal.rs:300-302 | Dropping the oldest command keeps at most 50 and keeps the newest. |
| TerminalModel.AsWrittenNeverRecords | src/components/terminal.rs:295-302 | The recording rule as written adds nothing to an empty history, so no sequence of commands is ever recorded. |
| TerminalModel.AsWrittenDropsFirstCommand | src/components/terminal.rs:296-298 | As written, the first command "ls" is not recorded; the intended rule records it. |
| TerminalModel.AsWrittenHistoryEmpty | src/components/terminal.rs:439-443 | As written, `history` always answers "No command history". |
| TerminalModel.RecordAsWrittenSpec | src/components/terminal.rs:295-302 | The rule as written keeps the history within 50 entries and free of adjacent repeats, and leaves an empty history empty. |
| TerminalModel.RecordSpec | src/components/terminal.rs:295-302 | With the intended rule, the history keeps at most 50 commands. A non-blank command becomes the last entry, a blank one changes nothing, and no command is stored twice in a row. |
| TerminalModel.RecordAllSpec | src/components/terminal.rs:295-302 | With the intended rule, over any sequence of commands the history stays within 50 entries with no adjacent repeats, and ends with the last non-blank command. |
| TerminalModel.RecordedLast | src/components/terminal.rs:295-302 | With the intended rule, a trimmed, non-empty command is the newest history entry after recording. |
| TerminalModel.Completions | src/components/terminal.rs:116-122 | The candidates are exactly the command names that start with the typed word. |
| TerminalModel.CompleteCd | src/components/terminal.rs:115-127 | "cd" completes to itself alone, so a lone "cd" never reaches file completion. |
| TerminalModel.CompleteLs | src/components/terminal.rs:115-127 | "ls" completes to itself alone. |
| TerminalModel.CompleteCat | src/components/terminal.rs:115-127 | "cat" completes to itself alone. |
| TerminalModel.CompleteRm | src/components/terminal.rs:115-127 | "rm" completes to itself alone. |
| TerminalModel.CompleteTouch | src/components/terminal.rs:115-127 | "touch" completes to itself alone. |
| TerminalModel.HistoryLineCount | src/components/terminal.rs:444-447 | The history listing has one line per recorded command. |
| TerminalModel.HistoryLinesEnd | src/components/terminal.rs:444-447 | The history listing ends with the newest command. |
| TerminalModel.ListingLineCount | src/components/terminal.rs:352-361 | The `ls` output has one line per entry, and is empty exactly when the directory is. |
| TerminalModel.Operand | src/components/terminal.rs:329 | A command has an operand exactly when the line has a second word. |
| TerminalModel.Parse | src/components/terminal.rs:311-453 | A first word outside the eleven command names is an unknown command carrying that word. |
| TerminalModel.RmFlagPosition | src/components/terminal.rs:428-429 | `rm` is recursive only when the third word is exactly "-r". "-r" in second place is the operand, and "-rf" is not the flag. |
| TerminalModel.RmOutcome | src/components/terminal.rs:423-437 | `rm` deletes the resolved path. It prints nothing on success and "rm: " with the error otherwise. |
| TerminalModel.MkdirOutcome | src/components/terminal.rs:395-408 | `mkdir` creates the resolved path without parents. It prints nothing on success and "mkdir: " with the error otherwise. |
| TerminalModel.TouchOutcome | src/components/terminal.rs:409-422 | `touch` writes empty contents to the resolved path. It prints nothing on success and "touch: " with the error otherwise. |
| TerminalModel.LsOutcome | src/components/terminal.rs:344-366 | `ls` prints one line per listed entry, or "ls: " with the listing error. |
| TerminalModel.CdLandsOnDirectory | src/components/terminal.rs:328-340 | After `cd`, the working directory is either unchanged or the resolved path of an existing directory. |
| TerminalModel.CdMoves | src/components/terminal.rs:328-335 | `cd` to an existing directory moves there. |
| TerminalModel.CdIntoChild | src/components/terminal.rs:328-335 | `cd` into a child directory moves to a well-formed path whose parent is the old directory. |
| TerminalModel.DotDotPath | src/components/terminal.rs:457-469 | ".." is resolved as a plain name below the working directory, not as its parent. |
| TerminalModel.CdDotDotStays | src/components/terminal.rs:328-340 | `cd ..` stays where it is unless an entry literally named ".." exists. |
| TerminalModel.CdMissingStays | src/components/terminal.rs:336-338 | `cd` to a missing path leaves the working directory unchanged. |
| TerminalModel.CdAloneGoesToRoot | src/components/terminal.rs:329 | `cd` with no operand goes to "/". |
| TerminalModel.RmNeedsFlag | src/components/terminal.rs:428-437 | `rm` without "-r" on a non-empty directory fails with "is not empty" and changes nothing. |
| TerminalModel.MkdirNoParents | src/components/terminal.rs:400-402 | `mkdir` under a missing parent fails with "Parent directory … does not exist" and changes nothing. |
| TerminalModel.TouchEmpties | src/components/terminal.rs:414-415 | After a successful `touch`, reading the file gives the empty text. |
| TerminalModel.RecordedCommandListed | src/components/terminal.rs:439-450 | With the intended recording, `history` lists the history under "Command History:", and the listing ends with the command just typed. |
| TerminalModel.ReplyShowsHistory | src/components/terminal.rs:439-450 | `history` on a non-empty history prints the heading followed by one numbered line per command. |
| Terminal.FormatListing | src/components/terminal.rs:352-361 | The loop builds the `ls` text: one "name/" or "name" line per entry. |
| Terminal.FormatHistory | src/components/terminal.rs:444-447 | The loop builds the heading followed by one "n: command" line per command. |
| Terminal.Terminal.constructor | src/components/terminal.rs:41-54 | A new terminal is in "/home" with an empty history, no history position, the two banner lines and an empty input. |
| Terminal.Terminal.InputChanged | src/components/terminal.rs:58-61 | Only the input changes. |
| Terminal.Terminal.Submit | src/components/terminal.rs:62-69 | A blank input changes nothing. Otherwise the trimmed command is run with the effects of `execute_command`, the history follows the recording rule as written (an empty history stays empty), and the input is cleared. |
| Terminal.Terminal.ArrowUp | src/components/terminal.rs:76-89 | On a non-empty history, the position moves to the newest entry or one older (stopping at the oldest), and the input becomes that entry. |
| Terminal.Terminal.ArrowDown | src/components/terminal.rs:90-106 | The position moves one newer and loads that entry. Past the newest, it clears both position and input. Without a position nothing changes. |
| Terminal.Terminal.Tab | src/components/terminal.rs:107-135 | A single word with one matching command name becomes that name. With several matches they are listed after an echo. With none, a single word changes nothing. |
| Terminal.Terminal.ExecuteCommand | src/components/terminal.rs:292-455 | The command line is echoed, the history follows the recording rule as written (an empty history stays empty) and the position is reset. The command's effect on the working directory, file system and scroll-back is as the model states, and `clear` empties the scroll-back. |
| Terminal.Terminal.Run | src/components/terminal.rs:311-454 | Dispatches on the command: the new working directory, file system and output are those of `DirAfter`, `Effect` and `Reply`. |
| Terminal.Terminal.RunCd | src/components/terminal.rs:328-340 | `cd` moves to a listable resolved path, or prints "cd: " with the error. |
| Terminal.Terminal.RunLs | src/components/terminal.rs:344-367 | `ls` prints each direct child once, or "ls: " with the error. |
| Terminal.Terminal.RunCat | src/components/terminal.rs:368-383 | `cat` prints the file's text, the missing-operand message, or "cat: " with the error. |
| Terminal.Terminal.RunMkdir | src/components/terminal.rs:395-408 | `mkdir` performs `create_directory` without parents and reports its error. |
| Terminal.Terminal.RunTouch | src/components/terminal.rs:409-422 | `touch` writes empty contents and reports its error. |
| Terminal.Terminal.RunRm | src/components/terminal.rs:423-438 | `rm` deletes, recursively only with "-r", and reports its error. |
| Desktop.WindowIdInjective | src/components/desktop.rs:85-86 | Different counter values give different window ids. |
| Desktop.Cascade | src/components/desktop.rs:89-90 | A new window is placed at 50, 80, 110, 140 or 170 on both axes. |
| Desktop.CascadeCycle | src/components/desktop.rs:89-90 | The position repeats every five windows, and two counts give the same position exactly when they agree modulo 5. |
| Desktop.OpenedContent | src/components/desktop.rs:170-174 | An "image" opens in the image viewer. Every other type opens in the text editor. |
| Desktop.OpenedTitleMismatch | src/components/desktop.rs:170-182 | A file type other than "text" and "image" opens a text editor whose title ends in "Image Viewer". |
| Desktop.NextIdFresh | src/components/desktop.rs:85-86 | The id made from the counter is not in use yet. |
| Desktop.CreatedFollows | src/components/desktop.rs:104-110 | After unfocusing the others and inserting the new focused window, exactly the active window is focused. |
| Desktop.CloseInactiveConsistent | src/components/desktop.rs:113-125 | Closing a window that is not active keeps the table's invariants. |
| Desktop.CloseActiveConsistent | src/components/desktop.rs:113-125 | Closing the active window and focusing another remaining one keeps the invariants. |
| Desktop.RefocusConsistent | src/components/desktop.rs:133-157 | Focusing a window keeps the invariants with it as the active window. |
| Desktop.Refocus | src/components/desktop.rs:150-155 | The loop focuses exactly the target window and changes nothing else. |
| Desktop.Desktop.constructor | src/components/desktop.rs:72-79 | A new desktop has no windows, no active window, counter 0, no context menu and background "#2a6496". |
| Desktop.Desktop.CreateWindow | src/components/desktop.rs:84-111 | A new window gets a fresh id and the cascade position, size 600×400, not minimised and focused. It becomes active, every other window is unfocused, and the counter goes up by one. |
| Desktop.Desktop.CloseWindow | src/components/desktop.rs:113-125 | The window is removed. If it was active, some remaining window becomes active and focused, or none when the table is empty. |
| Desktop.Desktop.MinimizeWindow | src/components/desktop.rs:127-132 | Only that window's minimised flag is set, if the window exists. |
| Desktop.Desktop.RestoreWindow | src/components/desktop.rs:133-149 | The window is un-minimised and becomes the only focused and the active window. |
| Desktop.Desktop.FocusWindow | src/components/desktop.rs:150-158 | Exactly that window becomes focused, and it becomes active. |
| Desktop.Desktop.ContextMenu | src/components/desktop.rs:159-167 | An open menu closes, and a closed one opens at the given point. |
| Desktop.Desktop.OpenFile | src/components/desktop.rs:168-186 | As `CreateWindow`: a new 600 by 400 window under the next id, at the cascade position, with the title and content the file type selects, becomes the only focused window and the active one; every other window is kept, unfocused. |
| Desktop.Desktop.ChangeBackgroundColor | src/components/desktop.rs:187-190 | Only the background colour changes. |
| Compressor.Without | src/components/file_compressor.rs:76-77 | Removing a path keeps every other path and no more elements. |
| Compressor.WithoutAbsent | src/components/file_compressor.rs:76-77 | Removing an absent path changes nothing. |
| Compressor.WithoutKeepsNoDuplicates | src/components/file_compressor.rs:76-77 | Removal keeps a selection without repeats free of repeats. |
| Compressor.ToggleSpec | src/components/file_compressor.rs:75-82 | Toggling flips the path's membership, keeps every other path, and keeps the selection free of repeats. |
| Compressor.ToggleTwice | src/components/file_compressor.rs:75-82 | Toggling an unselected path twice restores the selection. |
| Compressor.ZipNameSpec | src/components/file_compressor.rs:95-99 | The archive's file name always ends in ".zip", and a name that does is kept. |
| Compressor.ArchivePathZip | src/components/file_compressor.rs:95-99 | The archive path ends in ".zip". |
| Compressor.DefaultNameKept | src/components/file_compressor.rs:42 | The default name "archive.zip" is used as it is. |
| Compressor.RootArchiveAsWrittenHidden | src/components/file_compressor.rs:95-99 | In the root, the path as written starts with "//", and listing the root never shows it. |
| Compressor.RootArchiveKey | src/components/file_compressor.rs:95-99 | The path written in the root, "//archive.zip", has the parent "/" and the file name "archive.zip", as `Path::parent` and `file_name` give. |
| Compressor.RootArchiveStoredHidden | src/components/file_compressor.rs:95-113 | With storage available, compressing in the root succeeds: the archive is stored under "//archive.zip", whose parent is "/", yet the root's listing does not show it. |
| Compressor.RootArchiveHidden | src/components/file_compressor.rs:95-99 | In the root, the default archive goes to "//archive.zip" as written, not "/archive.zip". |
| Compressor.AsWrittenAgreesOffRoot | src/components/file_compressor.rs:95-99 | Away from a directory ending in '/', the path as written and the corrected path agree. |
| Compressor.ArchiveListed | src/components/file_compressor.rs:95-99 | With the corrected path, the archive is a well-formed direct child of the current directory, so listing it shows the archive. |
| Compressor.FileLinesCount | src/components/file_compressor.rs:107 | The file list has one line per selected file. |
| Compressor.HeaderCount | src/components/file_compressor.rs:102-106 | The header has three lines. |
| Compressor.StartsWithMagic | src/components/file_compressor.rs:102-108 | The archive text starts with "SIMULATED ZIP ARCHIVE". |
| Compressor.ArchiveContentSpec | src/components/file_compressor.rs:102-108 | The archive text starts with the magic line and has 3 + (number of selected files) lines. |
| Compressor.ArchiveRoundTrip | src/components/file_compressor.rs:110-126 | A written archive reads back unchanged and passes the extraction's magic test. |
| Compressor.ExtractAsWrittenPanics | src/components/file_compressor.rs:124-136 | As written, extracting any readable archive panics: the read borrow is still held when `create_directory` borrows mutably. |
| Compressor.FreshArchivePanics | src/components/file_compressor.rs:110-136 | As written, an archive the compressor has just written can never be extracted. |
| Compressor.RootExtractDirHidden | src/components/file_compressor.rs:134 | In the root, the extraction directory as written starts with "//" and is hidden from the root's listing. |
| Compressor.ExtractRejects | src/components/file_compressor.rs:124-160 | An unreadable file, or one without the magic line, changes nothing and reports an error. |
| Compressor.ExtractCreatesReadme | src/components/file_compressor.rs:126-143 | A successful extraction reports "Extracted to:" and the directory, and README.txt in it reads back with its text. |
| Compressor.UpTargetSpec | src/components/file_compressor.rs:62-68 | Going up from a directory other than the root reaches the directory that lists it. The root goes to itself. |
| Compressor.FileCompressor.constructor | src/components/file_compressor.rs:35-44 | A new compressor is in "/home" with nothing selected, the name "archive.zip" and no message. |
| Compressor.FileCompressor.NavigateTo | src/components/file_compressor.rs:49-61 | A listable path becomes the current directory and clears the selection. Otherwise "Error: " with the message is shown and nothing else changes. |
| Compressor.FileCompressor.NavigateUp | src/components/file_compressor.rs:62-70 | Navigates, as `NavigateTo` does, to the parent of the current directory, or to "/". |
| Compressor.FileCompressor.Refresh | src/components/file_compressor.rs:71-74 | Only the message is cleared. |
| Compressor.FileCompressor.ClearMessage | src/components/file_compressor.rs:164-167 | Only the message is cleared. |
| Compressor.FileCompressor.ToggleFileSelection | src/components/file_compressor.rs:75-82 | The selection becomes the toggled selection and stays free of repeats. |
| Compressor.FileCompressor.UpdateArchiveName | src/components/file_compressor.rs:83-86 | Only the archive name changes. |
| Compressor.FileCompressor.CompressFiles | src/components/file_compressor.rs:87-121 | An empty selection reports an error and writes nothing. Otherwise the archive text is written to the path as written (directory, "/", file name). Success clears the selection and reports the path; failure keeps the selection and reports the error. |
| Compressor.FileCompressor.ExtractArchive | src/components/file_compressor.rs:122-163 | The file system and message become those of the intended extraction. |

## Left out

- Serialization of the index to JSON is not modelled. The stored index is the `Snapshot` value itself, and a stored index that cannot be parsed is any value other than a snapshot. Likewise a file's text is a `Blob` value. A `Snapshot` found under a content key reads as a failed read, where the source would return whatever string is stored there. Only an arbitrary initial store can hold one, because content keys are never the index key (`ContentKeyInjective`).
- `get_storage` is not modelled. Whether the browser grants local storage is the fixed `available` flag.
- The clock is a `now` parameter. All levels of one recursive `create_directory` share it, where the source reads the clock again at each level.
- Storage writes that fail while storage is available (quota errors) are not modelled.
- Rendering (`view`), scrolling (`ScrollToBottom`, `rendered`) and the other components are not modelled.
- Terminal.Terminal.Tab: file-name completion (src/components/terminal.rs:137-213) is not modelled. For input of several words the contract says nothing about the input and the scroll-back.
- Filesystem.FileSystem.ListDirectory: the order of the listing follows HashMap iteration, which is not modelled. The contract states the set of children and that each is listed once.
- Desktop.Desktop.CloseWindow: when the active window closes, the window that takes focus is the first in HashMap order. The contract states only that it is some remaining window.
- Desktop.Desktop.CreateWindow: the window counter is an unbounded natural number, so 32-bit wrap-around is not modelled.
- Desktop.Desktop.constructor: the three attempts at `FileSystem::new` in `create`, and the panic after them, are not part of this model. The terminal and the compressor are given a `FileSystem` object instead.
- `Rc<RefCell<WindowState>>` aliasing is not modelled: the window table maps ids to window values.
- Messages a handler sends to itself (`OpenFile` to `CreateWindow`, `NavigateUp` to `NavigateTo`) are modelled as direct calls.
- `std::path::Path::parent`, `file_name` and `file_stem` are modelled by a rule on the last '/'. This rule agrees with the standard library on well-formed absolute paths without "." or ".." components. It does not model the standard library on paths with such components (the file name of "/home/.." is none there), with doubled separators inside, or with a trailing '/'. For "/home/foo/" the standard library gives the parent "/home" and the name "foo", where the model gives "/home/foo" and "". So `mkdir foo/` or `touch x/` in "/home" creates the entry "/home/foo/" or "/home/x/" in the source but fails with a missing parent in the model.
- FsProps.DeleteKeepsTree: requires that the path is not a File with children. `write_file` over a non-empty directory produces such a File, and deleting it then breaks the tree shape; see Findings.
- Terminal.Terminal.ExecuteCommand: the words of a command are taken from the line `Submit` has already trimmed. The second `trim` in `execute_command` changes nothing before `split_whitespace`, so it is not modelled separately.
- Compressor.FileCompressor.ExtractArchive: states the intended, non-panicking extraction, into the corrected directory `ExtractDir` rather than `ExtractDirAsWritten`. The code as written panics; see Findings.

## Findings

| source | as written | input that shows it | evidently intended | confidence | as-written member | corrected member |
|---|---|---|---|---|---|---|
| src/components/terminal.rs:296 | A command is recorded only if the history is non-empty and its last entry differs from the command | any first command, e.g. "ls" on a new terminal | record a non-blank command when the history is empty or its last entry differs | not executed | TerminalModel.AsWrittenNeverRecords | TerminalModel.RecordSpec |
| src/components/file_compressor.rs:95-99 | the archive path is the directory, "/" and the file name | compressing in "/" writes "//archive.zip", which the root's listing never shows | one separator after the directory: "/archive.zip" | not executed | Compressor.RootArchiveHidden | Compressor.ArchiveListed |
| src/filesystem.rs:192-204 | `write_file` turns any entry, a non-empty directory included, into a File, and `delete` of a File removes that entry alone | `write_file("/home", "")` then `delete("/home", false)` on a new file system leaves "/home/documents" without its parent | treat an entry with children like a non-empty directory: refuse it without `recursive`, remove its subtree with it | not executed | FsProps.OverwriteThenDeleteOrphans | FsProps.DeleteIntendedKeepsTree |
| src/components/file_compressor.rs:124-136 | the `Ref` from `self.fs.borrow()` in the `match` scrutinee lives until the `match` ends, and `borrow_mut` is called inside it | extracting any file that starts with "SIMULATED ZIP ARCHIVE", e.g. one the compressor just wrote | release the read borrow before creating the directory and README.txt | not executed | Compressor.FreshArchivePanics | Compressor.ExtractCreatesReadme |
