/** The virtual file system of `src/filesystem.rs` as values: a flat index from path strings to
    metadata, mirrored into the browser's key-value storage. Every operation is a function from
    the state before to the state after and the operation's result; the class in module
    Filesystem performs the same steps in place and is proved to agree with these functions. */
module FsModel {
  import opened Text

  datatype Option<T> = None | Some(value: T)

  datatype FileType = File | Directory

  /** `FileMetadata`. `size` is the byte length of a file's UTF-8 content (0 for a directory);
      `created` and `modified` are host-clock milliseconds. */
  datatype Metadata = Metadata(name: string, fileType: FileType, size: nat, created: nat, modified: nat)

  /** The `files` map: path string to metadata. */
  type Index = map<string, Metadata>

  /** A value in the host's key-value storage. A content blob is a string. A serialized index is
      represented by the index itself; any string found under the index key is one that does not
      deserialize. */
  datatype Stored = Blob(text: string) | Snapshot(index: Index)

  /** The host's key-value storage (browser local storage). */
  type Store = map<string, Stored>

  /** The in-memory index, the host storage, and whether the host grants access to that storage. */
  datatype State = State(files: Index, store: Store, available: bool)

  /** The error strings the operations return, one constructor per message shape. */
  datatype FsError =
    | NotADirectory(path: string)
    | NoSuchDirectory(path: string)
    | AlreadyExists(path: string)
    | InvalidPath
    | ParentMissing(parent: string)
    | NotAFile(path: string)
    | NoSuchFile(path: string)
    | ReadFailed(path: string)
    | NoSuchEntry(path: string)
    | NotEmpty(path: string)
    | StorageUnavailable

  datatype Result<T> = Ok(value: T) | Err(error: FsError)

  /** The text of each error, as the operations format it. */
  function Message(e: FsError): string {
    match e
    case NotADirectory(p) => p + " is not a directory"
    case NoSuchDirectory(p) => "Directory " + p + " does not exist"
    case AlreadyExists(p) => p + " already exists"
    case InvalidPath => "Invalid path"
    case ParentMissing(p) => "Parent directory " + p + " does not exist"
    case NotAFile(p) => p + " is not a file"
    case NoSuchFile(p) => "File " + p + " does not exist"
    case ReadFailed(p) => "Failed to read file " + p
    case NoSuchEntry(p) => p + " does not exist"
    case NotEmpty(p) => "Directory " + p + " is not empty"
    case StorageUnavailable => "Local storage not available"
  }

  /** The storage key of the serialized index. */
  const IndexKey: string := "wasm_desktop_fs"

  /** The prefix of the storage key of a file's content. */
  const ContentPrefix: string := "wasm_desktop_file:"

  function ContentKey(path: string): string {
    ContentPrefix + path
  }

  /** `normalize_path`: trims surrounding whitespace and maps an empty result or "." to "/".
      Nothing else changes: doubled and trailing separators are kept. */
  function NormalizePath(path: string): (r: string)
    ensures r != []
    ensures path != [] ==> |r| <= |path|
  {
    var t := Trim(path);
    if t == [] || t == "." then "/" else t
  }

  /** A normalized path neither starts nor ends with whitespace, and normalizing it again
      changes nothing. */
  lemma NormalizeSpec(path: string)
    ensures var r := NormalizePath(path);
      !IsWhitespace(r[0]) && !IsWhitespace(r[|r| - 1]) && NormalizePath(r) == r
  {
    TrimSpec(path);
    var r := NormalizePath(path);
    TrimSpec(r);
  }

  /** The index of the last '/' in `s`, if any. */
  function LastSlash(s: string): (r: Option<nat>)
    ensures r.Some? ==> r.value < |s| && s[r.value] == '/' && '/' !in s[r.value + 1..]
    ensures r.None? ==> '/' !in s
  {
    if s == [] then None
    else if s[|s| - 1] == '/' then Some(|s| - 1)
    else
      var r := LastSlash(s[..|s| - 1]);
      assert r.Some? ==> s[r.value + 1..] == s[..|s| - 1][r.value + 1..] + [s[|s| - 1]];
      assert r.None? ==> s == s[..|s| - 1] + [s[|s| - 1]];
      r
  }

  /** `Path::parent`, by the last '/': the text before it, or "/" when it is the first
      character, or "" when there is none; no parent for "" and "/". */
  function Parent(p: string): (r: Option<string>)
    ensures r.Some? ==> |r.value| < |p|
  {
    if p == "" || p == "/" then None
    else match LastSlash(p)
      case None => Some("")
      case Some(i) => if i == 0 then Some("/") else Some(p[..i])
  }

  /** `Path::file_name`, by the last '/': the text after it; none for "" and "/". */
  function FileName(p: string): Option<string> {
    if p == "" || p == "/" then None
    else match LastSlash(p)
      case None => Some(p)
      case Some(i) => Some(p[i + 1..])
  }

  /** The prefix every entry below `p` starts with: `p` itself when it ends in '/', else `p + "/"`. */
  function DirPrefix(p: string): string {
    if EndsWith(p, "/") then p else p + "/"
  }

  /** The test `list_directory` applies to each key `k` of the index. */
  predicate IsDirectChild(p: string, k: string) {
    var prefix := DirPrefix(p);
    k != p && StartsWith(k, prefix) && '/' !in k[|prefix|..]
  }

  /** The test a recursive `delete` applies to each key `k` of the index. */
  predicate IsDescendant(p: string, k: string) {
    k != p && StartsWith(k, DirPrefix(p))
  }

  function Children(files: Index, p: string): set<string> {
    set k | k in files && IsDirectChild(p, k)
  }

  function Descendants(files: Index, p: string): set<string> {
    set k | k in files && IsDescendant(p, k)
  }

  /** The content keys of the files among `ks`. */
  function BlobKeys(files: Index, ks: set<string>): set<string> {
    set k | k in ks && k in files && files[k].fileType == File :: ContentKey(k)
  }

  /** `ks` lists every element of `s` exactly once, in some order. */
  ghost predicate Enumerates(ks: seq<string>, s: set<string>) {
    (forall i, j :: 0 <= i < j < |ks| ==> ks[i] != ks[j]) && (forall k :: k in s <==> k in ks)
  }

  /** `list_directory`, with the listed entries identified by their keys: the paths of the
      direct children of an existing directory. */
  function Listing(files: Index, path: string): Result<set<string>> {
    ListingAt(files, NormalizePath(path))
  }

  /** `list_directory` once the path is normalized. */
  function ListingAt(files: Index, p: string): Result<set<string>> {
    if p !in files then Err(NoSuchDirectory(p))
    else if files[p].fileType != Directory then Err(NotADirectory(p))
    else Ok(Children(files, p))
  }

  /** `save`: writes the whole index under the index key. */
  function Save(s: State): (State, Result<()>) {
    if s.available then (s.(store := s.store[IndexKey := Snapshot(s.files)]), Ok(()))
    else (s, Err(StorageUnavailable))
  }

  /** The tail of `create_directory`: inserts the directory entry, then saves. */
  function AddDirectory(s: State, p: string, now: nat): (State, Result<()>) {
    match FileName(p)
    case None => (s, Err(InvalidPath))
    case Some(name) => Save(s.(files := s.files[p := Metadata(name, Directory, 0, now, now)]))
  }

  /** `create_directory`. A missing parent other than "" and "/" is an error unless
      `parents`, in which case it is created first, with its own missing parents, each level
      saving the index. */
  function CreateDir(s: State, path: string, parents: bool, now: nat): (State, Result<()>)
    decreases |NormalizePath(path)|, 1
  {
    CreateDirAt(s, NormalizePath(path), parents, now)
  }

  /** `create_directory` once the path is normalized. The parent is created through
      `create_directory` itself, which normalizes it again. */
  function CreateDirAt(s: State, p: string, parents: bool, now: nat): (State, Result<()>)
    decreases |p|, 0
  {
    if p in s.files then (s, Err(AlreadyExists(p)))
    else match Parent(p)
      case None => (s, Err(InvalidPath))
      case Some(parent) =>
        if parent == "" || parent == "/" || parent in s.files then AddDirectory(s, p, now)
        else if !parents then (s, Err(ParentMissing(parent)))
        else
          var (s1, r1) := CreateDir(s, parent, true, now);
          if r1.Err? then (s1, r1) else AddDirectory(s1, p, now)
  }

  /** `write_file`: creates or overwrites a File entry (keeping an existing entry's `created`),
      stores the content blob, then saves. The parent is never created. */
  function Write(s: State, path: string, contents: string, now: nat): (State, Result<()>) {
    WriteAt(s, NormalizePath(path), contents, now)
  }

  /** `write_file` once the path is normalized. */
  function WriteAt(s: State, p: string, contents: string, now: nat): (State, Result<()>) {
    match Parent(p)
    case None => (s, Err(InvalidPath))
    case Some(parent) =>
      if parent != "" && parent != "/" && parent !in s.files then (s, Err(ParentMissing(parent)))
      else match FileName(p)
        case None => (s, Err(InvalidPath))
        case Some(name) =>
          var created := if p in s.files then s.files[p].created else now;
          var s1 := s.(files := s.files[p := Metadata(name, File, Utf8Len(contents), created, now)]);
          if !s.available then (s1, Err(StorageUnavailable))
          else Save(s1.(store := s1.store[ContentKey(p) := Blob(contents)]))
  }

  /** `read_file`. */
  function Read(s: State, path: string): Result<string> {
    ReadAt(s, NormalizePath(path))
  }

  /** `read_file` once the path is normalized. The operations store snapshots only under the
      index key, which is never a content key; a snapshot under a content key, possible only in
      an arbitrary initial store, reads as a failed read like an absent blob. */
  function ReadAt(s: State, p: string): Result<string> {
    if p !in s.files then Err(NoSuchFile(p))
    else if s.files[p].fileType != File then Err(NotAFile(p))
    else if !s.available then Err(StorageUnavailable)
    else if ContentKey(p) in s.store && s.store[ContentKey(p)].Blob? then Ok(s.store[ContentKey(p)].text)
    else Err(ReadFailed(p))
  }

  /** `delete`. A directory with direct children needs `recursive`; a recursive delete removes
      every key below the path, with the content blobs of the files among them. Blob removals
      that fail are ignored; the index is saved at the end. */
  function Delete(s: State, path: string, recursive: bool): (State, Result<()>) {
    DeleteAt(s, NormalizePath(path), recursive)
  }

  /** `delete` once the path is normalized. The children are found by `list_directory`,
      which normalizes the path again. */
  function DeleteAt(s: State, p: string, recursive: bool): (State, Result<()>) {
    if p !in s.files then (s, Err(NoSuchEntry(p)))
    else if s.files[p].fileType == Directory then
      var listed := Listing(s.files, p);
      if listed.Err? then (s, Err(listed.error))
      else if listed.value != {} && !recursive then (s, Err(NotEmpty(p)))
      else if recursive then
        var doomed := Descendants(s.files, p);
        var store := if s.available then s.store - BlobKeys(s.files, doomed) else s.store;
        Save(s.(files := s.files - doomed - {p}, store := store))
      else
        Save(s.(files := s.files - {p}))
    else
      var store := if s.available then s.store - {ContentKey(p)} else s.store;
      Save(s.(files := s.files - {p}, store := store))
  }

  /** The index `new` starts from when nothing usable is stored: the root directory alone. */
  function RootOnly(now: nat): Index {
    map["/" := Metadata("/", Directory, 0, now, now)]
  }

  /** `new`: loads a stored index, or seeds the root, /home, /home/documents, /home/pictures
      and /applications and saves. */
  function New(store: Store, available: bool, now: nat): Result<State> {
    if available && IndexKey in store && store[IndexKey].Snapshot? then
      Ok(State(store[IndexKey].index, store, available))
    else
      Seed(State(RootOnly(now), store, available), "/home", "/home/documents", "/home/pictures", "/applications", now)
  }

  /** The seeding sequence of `new`: `create_directory(p, true)` for each of the four paths in
      turn, then `save`, stopping at the first error. */
  function Seed(s0: State, a: string, b: string, c: string, d: string, now: nat): Result<State> {
    var (s1, r1) := CreateDir(s0, a, true, now);
    if r1.Err? then Err(r1.error) else
    var (s2, r2) := CreateDir(s1, b, true, now);
    if r2.Err? then Err(r2.error) else
    var (s3, r3) := CreateDir(s2, c, true, now);
    if r3.Err? then Err(r3.error) else
    var (s4, r4) := CreateDir(s3, d, true, now);
    if r4.Err? then Err(r4.error) else
    var (s5, r5) := Save(s4);
    if r5.Err? then Err(r5.error) else Ok(s5)
  }
}
