/** Properties of the file system operations of FsModel: what `list_directory` returns, the
    tree shape every operation keeps, and the effect of each operation on the index and on the
    stored file contents. Most are stated for an operation on an already normalized path (the
    `...At` functions); each operation on a raw path is that function applied to
    `NormalizePath(path)`, and a well-formed path is its own normal form (`NormalizeWellFormed`). */
module FsProps {
  import opened Text
  import opened FsModel
  import opened FsPaths

  /** The shape `new` establishes: the root is a directory, every key is a well-formed path, and
      the parent of every other key is a key too. */
  predicate IsTree(files: Index) {
    "/" in files && files["/"].fileType == Directory &&
    forall k :: k in files ==> WellFormed(k) && (k != "/" ==> Parent(k).Some? && Parent(k).value in files)
  }

  /** In a tree, `list_directory` of a directory returns exactly the entries whose parent it is:
      never the directory itself and never a deeper descendant. */
  lemma ListingIsParentOf(files: Index, p: string)
    requires IsTree(files) && p in files && files[p].fileType == Directory
    ensures Listing(files, p) == Ok(set k | k in files && Parent(k) == Some(p))
  {
    NormalizeWellFormed(p);
    forall k | k in files ensures IsDirectChild(p, k) <==> Parent(k) == Some(p) {
      ChildIffParent(p, k);
    }
    assert Children(files, p) == set k | k in files && Parent(k) == Some(p);
  }

  /** `list_directory` fails for an absent path and for a file, with the message naming it. */
  lemma ListingErrors(files: Index, p: string)
    ensures p !in files ==> ListingAt(files, p) == Err(NoSuchDirectory(p))
    ensures p in files && files[p].fileType == File ==> ListingAt(files, p) == Err(NotADirectory(p))
  {
  }

  /** Adding an entry whose parent is present keeps the tree shape. */
  lemma InsertKeepsTree(files: Index, p: string, m: Metadata)
    requires IsTree(files) && WellFormed(p) && p != "/"
    requires Parent(p).Some? && Parent(p).value in files
    ensures IsTree(files[p := m])
  {
  }

  /** The last step of `create_directory` adds `p` alone, and keeps the storage flag. */
  lemma AddDirectoryAdds(s: State, p: string, now: nat)
    ensures var (s1, r) := AddDirectory(s, p, now);
      s1.available == s.available &&
      s1.files.Keys <= s.files.Keys + {p} &&
      (forall k :: k in s.files && k != p ==> k in s1.files && s1.files[k] == s.files[k]) &&
      (r.Ok? ==> p in s1.files)
  {
  }

  /** `create_directory` only adds entries, and after success the directory is present. */
  lemma {:induction false} CreateDirGrows(s: State, p: string, parents: bool, now: nat)
    ensures var (s1, r) := CreateDirAt(s, p, parents, now);
      s1.available == s.available &&
      (forall k :: k in s.files ==> k in s1.files && s1.files[k] == s.files[k]) &&
      (r.Ok? ==> p in s1.files)
    decreases |p|
  {
    if p in s.files || Parent(p).None? {
      return;
    }
    var parent := Parent(p).value;
    if parent == "" || parent == "/" || parent in s.files {
      AddDirectoryAdds(s, p, now);
    } else if parents {
      var q := NormalizePath(parent);
      CreateDirGrows(s, q, true, now);
      var (s1, r1) := CreateDirAt(s, q, true, now);
      assert CreateDirAt(s, p, parents, now) == if r1.Err? then (s1, r1) else AddDirectory(s1, p, now);
      AddDirectoryAdds(s1, p, now);
    }
  }

  /** A `create_directory` that fails for any reason but storage leaves the state unchanged:
      an existing path (the root included), a path with no parent, or a missing parent without
      `parents`. */
  lemma {:induction false} CreateDirErrorUnchanged(s: State, p: string, parents: bool, now: nat)
    ensures var (s1, r) := CreateDirAt(s, p, parents, now);
      r.Err? && r.error != StorageUnavailable ==> s1 == s
    decreases |p|
  {
    if p !in s.files && Parent(p).Some? {
      var parent := Parent(p).value;
      if !(parent == "" || parent == "/" || parent in s.files) && parents {
        CreateDirErrorUnchanged(s, NormalizePath(parent), true, now);
      }
    }
  }

  /** Blank input names the root, which always exists in a tree: `create_directory` rejects it. */
  lemma CreateRootRejected(s: State, path: string, parents: bool, now: nat)
    requires AllWhitespace(path) && "/" in s.files
    ensures CreateDir(s, path, parents, now) == (s, Err(AlreadyExists("/")))
  {
    NormalizeBlank(path);
  }

  /** Without `parents`, a missing parent other than "/" makes `create_directory` fail with
      nothing changed. */
  lemma CreateDirParentMissing(s: State, p: string, now: nat)
    requires p !in s.files && Parent(p).Some?
    requires var q := Parent(p).value; q !in s.files && q != "" && q != "/"
    ensures CreateDirAt(s, p, false, now) == (s, Err(ParentMissing(Parent(p).value)))
  {
  }

  /** With `parents`, a missing parent other than "" and "/" that is already in normal form is
      created first, and `p` is added only when that succeeds. */
  lemma CreateDirAtStep(s: State, p: string, now: nat)
    requires p !in s.files && Parent(p).Some?
    requires var q := Parent(p).value; q != "" && q != "/" && q !in s.files && NormalizePath(q) == q
    ensures var (s1, r1) := CreateDirAt(s, Parent(p).value, true, now);
      CreateDirAt(s, p, true, now) == if r1.Err? then (s1, r1) else AddDirectory(s1, p, now)
  {
  }

  /** `create_directory` of a well-formed path keeps the tree shape, whether it succeeds or not. */
  lemma {:induction false} CreateDirKeepsTree(s: State, p: string, parents: bool, now: nat)
    requires IsTree(s.files) && WellFormed(p)
    ensures IsTree(CreateDirAt(s, p, parents, now).0.files)
    decreases |p|
  {
    if p in s.files || p == "/" {
      return;
    }
    ParentWellFormed(p);
    var parent := Parent(p).value;
    var m := Metadata(FileName(p).value, Directory, 0, now, now);
    if parent == "/" || parent in s.files {
      InsertKeepsTree(s.files, p, m);
    } else if parents {
      NormalizeWellFormed(parent);
      CreateDirAtStep(s, p, now);
      CreateDirKeepsTree(s, parent, true, now);
      CreateDirGrows(s, parent, true, now);
      var (s1, r1) := CreateDirAt(s, parent, true, now);
      if r1.Ok? {
        InsertKeepsTree(s1.files, p, m);
      }
    }
  }

  /** The proper ancestors of a well-formed path, from its parent up to the root. */
  function Ancestors(p: string): (r: set<string>)
    requires WellFormed(p)
    ensures p == "/" <==> r == {}
    ensures p != "/" ==> Parent(p).Some? && Parent(p).value in r
    decreases |p|
  {
    if p == "/" then {}
    else
      ParentWellFormed(p);
      {Parent(p).value} + Ancestors(Parent(p).value)
  }

  /** In a tree, the ancestors of every key are keys. */
  lemma {:induction false} TreeHasAncestors(files: Index, p: string)
    requires IsTree(files) && p in files
    ensures Ancestors(p) <= files.Keys
    decreases |p|
  {
    if p != "/" {
      ParentWellFormed(p);
      TreeHasAncestors(files, Parent(p).value);
    }
  }

  /** `s1` is `s` with exactly the keys `added` inserted, each an empty directory with
      `created == modified == now`, and storage still available. */
  ghost predicate AddsDirectories(s: State, s1: State, added: set<string>, now: nat) {
    s1.available &&
    s1.files.Keys == s.files.Keys + added &&
    (forall k :: k in s.files ==> s1.files[k] == s.files[k]) &&
    (forall k :: k in s1.files && k !in s.files ==>
       FileName(k).Some? && s1.files[k] == Metadata(FileName(k).value, Directory, 0, now, now))
  }

  /** Adding one more fresh directory after some have been added. */
  lemma AddsDirectoriesExtend(s: State, s1: State, added: set<string>, p: string, now: nat)
    requires AddsDirectories(s, s1, added, now) && FileName(p).Some? && p !in s.files
    ensures AddDirectory(s1, p, now).1.Ok?
    ensures AddsDirectories(s, AddDirectory(s1, p, now).0, added + {p}, now)
  {
  }

  /** `create_directory(p, true)` on a tree with storage available succeeds and adds exactly
      `p` and its missing ancestors, each an empty directory with `created == modified == now`;
      every other entry is kept. */
  lemma {:induction false} CreateDirAddsMissingAncestors(s: State, p: string, now: nat)
    requires IsTree(s.files) && s.available && WellFormed(p) && p !in s.files
    ensures CreateDirAt(s, p, true, now).1.Ok?
    ensures AddsDirectories(s, CreateDirAt(s, p, true, now).0, {p} + Ancestors(p), now)
    decreases |p|
  {
    ParentWellFormed(p);
    var parent := Parent(p).value;
    if parent == "/" || parent in s.files {
      AddsMissingBase(s, p, now);
    } else {
      NormalizeWellFormed(parent);
      CreateDirAddsMissingAncestors(s, parent, now);
      AddsMissingStep(s, p, now);
    }
  }

  /** The case of `CreateDirAddsMissingAncestors` where the parent exists. */
  lemma AddsMissingBase(s: State, p: string, now: nat)
    requires IsTree(s.files) && s.available && WellFormed(p) && p != "/" && p !in s.files
    requires Parent(p).Some? && (Parent(p).value == "/" || Parent(p).value in s.files)
    ensures CreateDirAt(s, p, true, now).1.Ok?
    ensures AddsDirectories(s, CreateDirAt(s, p, true, now).0, {p} + Ancestors(p), now)
  {
    ParentWellFormed(p);
    TreeHasAncestors(s.files, Parent(p).value);
    assert CreateDirAt(s, p, true, now) == AddDirectory(s, p, now);
    assert AddsDirectories(s, s, {}, now);
    AddsDirectoriesExtend(s, s, {}, p, now);
    assert s.files.Keys + ({} + {p}) == s.files.Keys + ({p} + Ancestors(p));
  }

  /** The case of `CreateDirAddsMissingAncestors` where the parent is missing and its own
      creation has added it and its missing ancestors. */
  lemma AddsMissingStep(s: State, p: string, now: nat)
    requires s.available && WellFormed(p) && p != "/" && p !in s.files
    requires Parent(p).Some? && Parent(p).value != "/" && Parent(p).value !in s.files
    requires WellFormed(Parent(p).value) && NormalizePath(Parent(p).value) == Parent(p).value
    requires var parent := Parent(p).value;
      CreateDirAt(s, parent, true, now).1.Ok? &&
      AddsDirectories(s, CreateDirAt(s, parent, true, now).0, {parent} + Ancestors(parent), now)
    ensures CreateDirAt(s, p, true, now).1.Ok?
    ensures AddsDirectories(s, CreateDirAt(s, p, true, now).0, {p} + Ancestors(p), now)
  {
    var parent := Parent(p).value;
    var added := {parent} + Ancestors(parent);
    assert Ancestors(p) == added;
    ParentWellFormed(p);
    CreateDirAtStep(s, p, now);
    var s1 := CreateDirAt(s, parent, true, now).0;
    AncestorsShorter(parent);
    assert p !in added;
    AddsDirectoriesExtend(s, s1, added, p, now);
    assert added + {p} == {p} + Ancestors(p);
  }

  /** Every proper ancestor of a path is shorter than it. */
  lemma {:induction false} AncestorsShorter(p: string)
    requires WellFormed(p)
    ensures forall a :: a in Ancestors(p) ==> |a| < |p|
    decreases |p|
  {
    if p != "/" {
      ParentWellFormed(p);
      AncestorsShorter(Parent(p).value);
    }
  }

  /** On an index holding the root alone, `create_directory(c, true)` for a path two levels
      below a child `a` of the root adds exactly `a`, the parent `b` of `c`, and `c`. */
  lemma CreateThreeLevels(s0: State, a: string, b: string, c: string, now: nat)
    requires s0.available && s0.files.Keys == {"/"} && s0.files["/"].fileType == Directory
    requires WellFormed(c) && Parent(c) == Some(b) && Parent(b) == Some(a) && Parent(a) == Some("/")
    ensures CreateDirAt(s0, c, true, now).1.Ok?
    ensures CreateDirAt(s0, c, true, now).0.files.Keys == {"/", a, b, c}
  {
    assert IsTree(s0.files);
    AncestorsStep(c);
    AncestorsStep(b);
    AncestorsStep(a);
    assert c !in s0.files;
    CreateDirKeys(s0, c, now);
  }

  /** The ancestors of a path other than the root are its parent and the parent's ancestors. */
  lemma AncestorsStep(p: string)
    requires WellFormed(p) && p != "/"
    ensures Parent(p).Some? && WellFormed(Parent(p).value)
    ensures Ancestors(p) == {Parent(p).value} + Ancestors(Parent(p).value)
  {
    ParentWellFormed(p);
  }

  /** The keys `create_directory(p, true)` leaves, from `CreateDirAddsMissingAncestors`. */
  lemma CreateDirKeys(s: State, p: string, now: nat)
    requires IsTree(s.files) && s.available && WellFormed(p) && p !in s.files
    ensures CreateDirAt(s, p, true, now).1.Ok?
    ensures CreateDirAt(s, p, true, now).0.files.Keys == s.files.Keys + ({p} + Ancestors(p))
  {
    CreateDirAddsMissingAncestors(s, p, now);
  }

  /** "/a", "/a/b" and "/a/b/c" are well-formed, each the parent of the next. */
  lemma PathsABC()
    ensures WellFormed("/a/b/c") && Parent("/a/b/c") == Some("/a/b")
    ensures Parent("/a/b") == Some("/a") && Parent("/a") == Some("/")
  {
    ChildPath("/", "a", "/a");
    ChildPath("/a", "b", "/a/b");
    ChildPath("/a/b", "c", "/a/b/c");
  }

  /** On the root alone, `create_directory("/a/b/c", true)` adds exactly /a, /a/b and /a/b/c. */
  lemma CreateNestedOnRoot(store: Store, now: nat)
    ensures var (s1, r) := CreateDir(State(RootOnly(now), store, true), "/a/b/c", true, now);
      r.Ok? && s1.files.Keys == {"/", "/a", "/a/b", "/a/b/c"}
  {
    PathsABC();
    NormalizeWellFormed("/a/b/c");
    CreateThreeLevels(State(RootOnly(now), store, true), "/a", "/a/b", "/a/b/c", now);
  }

  /** A directory that was just created cannot be created again. */
  lemma CreateDirTwice(s: State, path: string, parents: bool, now: nat, later: nat)
    requires CreateDir(s, path, parents, now).1.Ok?
    ensures var s1 := CreateDir(s, path, parents, now).0;
      CreateDir(s1, path, parents, later) == (s1, Err(AlreadyExists(NormalizePath(path))))
  {
    CreateDirGrows(s, NormalizePath(path), parents, now);
  }

  /** `write_file` of a well-formed path keeps the tree shape. */
  lemma WriteKeepsTree(s: State, p: string, contents: string, now: nat)
    requires IsTree(s.files) && WellFormed(p)
    ensures IsTree(WriteAt(s, p, contents, now).0.files)
  {
    if p != "/" {
      ParentWellFormed(p);
      if Parent(p).value in s.files {
        var created := if p in s.files then s.files[p].created else now;
        InsertKeepsTree(s.files, p, Metadata(FileName(p).value, File, Utf8Len(contents), created, now));
      }
    }
  }

  /** `write_file` adds no key but its own path, whether it succeeds or not. */
  lemma WriteAddsOnlyPath(s: State, p: string, contents: string, now: nat)
    ensures WriteAt(s, p, contents, now).0.files.Keys <= s.files.Keys + {p}
  {
  }

  /** A successful `write_file` leaves a File entry whose size is the byte length of the
      contents, which keeps the creation time of an entry it replaces and is stamped `now`
      otherwise, and whose content reads back. */
  lemma ReadAfterWrite(s: State, path: string, contents: string, now: nat)
    requires Write(s, path, contents, now).1.Ok?
    ensures var p := NormalizePath(path);
      var s1 := Write(s, path, contents, now).0;
      p in s1.files && s1.files[p].fileType == File && s1.files[p].size == Utf8Len(contents) &&
      s1.files[p].created == (if p in s.files then s.files[p].created else now) &&
      s1.files[p].modified == now &&
      Read(s1, path) == Ok(contents)
  {
    var p := NormalizePath(path);
    var name := FileName(p).value;
    var created := if p in s.files then s.files[p].created else now;
    var files := s.files[p := Metadata(name, File, Utf8Len(contents), created, now)];
    var store := s.store[ContentKey(p) := Blob(contents)];
    assert Write(s, path, contents, now).0 == State(files, store[IndexKey := Snapshot(files)], true);
    ContentKeyInjective(p, p);
  }

  /** What was written reads back, as `ReadAfterWrite` shows. */
  lemma ReadBack(s: State, path: string, contents: string, now: nat)
    requires Write(s, path, contents, now).1.Ok?
    ensures Read(Write(s, path, contents, now).0, path) == Ok(contents)
  {
    ReadAfterWrite(s, path, contents, now);
  }

  /** A missing parent other than "/" makes `write_file` fail with nothing changed: the parent
      is never created. */
  lemma WriteParentMissing(s: State, p: string, contents: string, now: nat)
    requires Parent(p).Some?
    requires var q := Parent(p).value; q !in s.files && q != "" && q != "/"
    ensures WriteAt(s, p, contents, now) == (s, Err(ParentMissing(Parent(p).value)))
  {
  }

  /** `write_file` changes what no other path reads. */
  lemma WriteLeavesOthers(s: State, path: string, contents: string, now: nat, other: string)
    requires NormalizePath(other) != NormalizePath(path)
    ensures var s1 := Write(s, path, contents, now).0;
      Read(s1, other) == Read(s, other) &&
      (NormalizePath(other) in s.files ==>
         NormalizePath(other) in s1.files && s1.files[NormalizePath(other)] == s.files[NormalizePath(other)])
  {
    ContentKeyInjective(NormalizePath(other), NormalizePath(path));
  }

  /** `read_file` fails for an absent path, for a directory, and when no content is stored. */
  lemma ReadErrors(s: State, p: string)
    ensures p !in s.files ==> ReadAt(s, p) == Err(NoSuchFile(p))
    ensures p in s.files && s.files[p].fileType == Directory ==> ReadAt(s, p) == Err(NotAFile(p))
    ensures p in s.files && s.files[p].fileType == File && s.available && ContentKey(p) !in s.store ==>
      ReadAt(s, p) == Err(ReadFailed(p))
  {
  }

  /** `delete` of an absent path fails with nothing changed. */
  lemma DeleteAbsent(s: State, p: string, recursive: bool)
    requires p !in s.files
    ensures DeleteAt(s, p, recursive) == (s, Err(NoSuchEntry(p)))
  {
  }

  /** A non-recursive `delete` of a directory with children fails with nothing changed. */
  lemma DeleteNotEmpty(s: State, p: string)
    requires NormalizePath(p) == p && p in s.files && s.files[p].fileType == Directory
    requires Children(s.files, p) != {}
    ensures DeleteAt(s, p, false) == (s, Err(NotEmpty(p)))
  {
  }

  /** The index `delete` leaves behind for an existing path: unchanged when a directory with
      children is not deleted recursively, the path and its descendants gone for a recursive
      delete of a directory, and the path alone gone otherwise. */
  lemma DeleteFiles(s: State, p: string, recursive: bool)
    requires NormalizePath(p) == p && p in s.files
    ensures var isDir := s.files[p].fileType == Directory;
      DeleteAt(s, p, recursive).0.files ==
        if isDir && Children(s.files, p) != {} && !recursive then s.files
        else if isDir && recursive then s.files - Descendants(s.files, p) - {p}
        else s.files - {p}
  {
  }

  /** The state a recursive `delete` of a directory leaves, step by step. */
  lemma DeleteRecursiveUnfold(s: State, p: string)
    requires NormalizePath(p) == p && p in s.files && s.files[p].fileType == Directory
    ensures var doomed := Descendants(s.files, p);
      var store := if s.available then s.store - BlobKeys(s.files, doomed) else s.store;
      DeleteAt(s, p, true) == Save(s.(files := s.files - doomed - {p}, store := store))
  {
  }

  /** Removing the descendants of `p` and `p` keeps exactly the keys outside the prefix. */
  lemma SubtreeRemoved(files: Index, p: string)
    ensures var rest := files - Descendants(files, p) - {p};
      (forall k :: k in rest <==> k in files && k != p && !StartsWith(k, DirPrefix(p))) &&
      (forall k :: k in rest ==> rest[k] == files[k])
  {
  }

  /** A recursive `delete` of a directory removes the directory and exactly the keys that start
      with its prefix; every other entry is kept. It succeeds exactly when storage is available. */
  lemma DeleteRecursiveExact(s: State, p: string)
    requires NormalizePath(p) == p && p in s.files && s.files[p].fileType == Directory
    ensures var (s1, r) := DeleteAt(s, p, true);
      (r.Ok? <==> s.available) &&
      (forall k :: k in s1.files <==> k in s.files && k != p && !StartsWith(k, DirPrefix(p))) &&
      (forall k :: k in s1.files ==> s1.files[k] == s.files[k])
  {
    DeleteRecursiveUnfold(s, p);
    SubtreeRemoved(s.files, p);
  }

  /** Removing the content keys of the files below `p` removes exactly those. */
  lemma SubtreeBlobsRemoved(files: Index, store: Store, p: string)
    ensures var st := store - BlobKeys(files, Descendants(files, p));
      (forall k :: k in files && IsDescendant(p, k) && files[k].fileType == File ==> ContentKey(k) !in st) &&
      (forall k :: k in files && !IsDescendant(p, k) && ContentKey(k) in store ==>
         ContentKey(k) in st && st[ContentKey(k)] == store[ContentKey(k)])
  {
    var doomed := Descendants(files, p);
    forall k | k in files && IsDescendant(p, k) && files[k].fileType == File
      ensures ContentKey(k) in BlobKeys(files, doomed)
    {
      assert k in doomed;
    }
    forall k | k in files && !IsDescendant(p, k)
      ensures ContentKey(k) !in BlobKeys(files, doomed)
    {
      forall j | j in doomed ensures ContentKey(j) != ContentKey(k) {
        ContentKeyInjective(j, k);
      }
    }
  }

  /** A recursive `delete` of a directory with storage available removes the content of every
      file below it, and no content of a file elsewhere. */
  lemma DeleteRecursiveBlobs(s: State, p: string)
    requires NormalizePath(p) == p && p in s.files && s.files[p].fileType == Directory
    requires s.available
    ensures var s1 := DeleteAt(s, p, true).0;
      (forall k :: k in s.files && IsDescendant(p, k) && s.files[k].fileType == File ==> ContentKey(k) !in s1.store) &&
      (forall k :: k in s.files && !IsDescendant(p, k) && ContentKey(k) in s.store ==>
         ContentKey(k) in s1.store && s1.store[ContentKey(k)] == s.store[ContentKey(k)])
  {
    DeleteRecursiveUnfold(s, p);
    SubtreeBlobsRemoved(s.files, s.store, p);
    forall k: string ensures ContentKey(k) != IndexKey {
      ContentKeyInjective(k, k);
    }
  }

  /** Deleting "/home" keeps "/home2": the prefix a recursive delete removes ends in '/'. */
  lemma DeleteKeepsSibling(s: State)
    requires "/home" in s.files && s.files["/home"].fileType == Directory && "/home2" in s.files
    ensures var s1 := Delete(s, "/home", true).0;
      "/home" !in s1.files && "/home2" in s1.files && s1.files["/home2"] == s.files["/home2"]
  {
    assert WellFormed("/home");
    NormalizeWellFormed("/home");
    DeleteRecursiveExact(s, "/home");
    assert "/home2"[5] != "/home/"[5];
  }

  /** A recursive `delete` of a directory that every other key lies below leaves the index empty. */
  lemma DeleteRecursiveCoversAll(s: State, p: string)
    requires NormalizePath(p) == p && p in s.files && s.files[p].fileType == Directory
    requires forall k :: k in s.files && k != p ==> StartsWith(k, DirPrefix(p))
    ensures DeleteAt(s, p, true).0.files == map[]
  {
    DeleteRecursiveExact(s, p);
    var s1 := DeleteAt(s, p, true).0;
    assert s1.files.Keys == {};
  }

  /** A recursive `delete` of "/" is not guarded: when every key is "/" or starts with "/", as
      in a tree (`TreeKeysUnderRoot`), it removes every entry, the root included. */
  lemma DeleteRootEmptiesAll(s: State)
    requires "/" in s.files && s.files["/"].fileType == Directory
    requires forall k :: k in s.files && k != "/" ==> StartsWith(k, "/")
    ensures Delete(s, "/", true).0.files == map[]
  {
    NormalizeWellFormed("/");
    DirPrefixWellFormed("/");
    DeleteRecursiveCoversAll(s, "/");
  }

  /** Every key of a tree but the root starts with "/". */
  lemma TreeKeysUnderRoot(files: Index)
    requires IsTree(files)
    ensures forall k :: k in files && k != "/" ==> StartsWith(k, "/")
  {
    forall k | k in files && k != "/" ensures StartsWith(k, "/") {
      assert WellFormed(k);
      assert k[..1] == [k[0]];
    }
  }

  /** Removing a key with no children from a tree keeps the tree shape. */
  lemma RemoveLeafKeepsTree(files: Index, p: string)
    requires IsTree(files) && p != "/" && p in files && Children(files, p) == {}
    ensures IsTree(files - {p})
  {
    forall k | k in files && k != p && k != "/" ensures Parent(k).value != p {
      ChildIffParent(p, k);
      assert k !in Children(files, p);
    }
  }

  /** Removing a non-root key and all its descendants from a tree keeps the tree shape. */
  lemma RemoveSubtreeKeepsTree(files: Index, p: string)
    requires IsTree(files) && p != "/" && p in files
    ensures IsTree(files - Descendants(files, p) - {p})
  {
    var rest := files - Descendants(files, p) - {p};
    DirPrefixWellFormed(p);
    forall k | k in rest && k != "/" ensures Parent(k).value in rest {
      var q := Parent(k).value;
      ChildIffParent(p, k);
      assert q != p;
      if IsDescendant(p, q) {
        DescendantTransitive(p, q, k);
      }
    }
    assert "/" in rest by {
      assert !StartsWith("/", DirPrefix(p));
    }
  }

  /** `delete` of a non-root path keeps the tree shape, provided the path is not a File that
      has children (a state `write_file` over a non-empty directory produces). */
  lemma DeleteKeepsTree(s: State, p: string, recursive: bool)
    requires IsTree(s.files) && NormalizePath(p) == p && p != "/"
    requires p in s.files && s.files[p].fileType == File ==> Children(s.files, p) == {}
    ensures IsTree(DeleteAt(s, p, recursive).0.files)
  {
    if p in s.files {
      DeleteFiles(s, p, recursive);
      var isDir := s.files[p].fileType == Directory;
      if isDir && recursive {
        RemoveSubtreeKeepsTree(s.files, p);
      } else if !(isDir && Children(s.files, p) != {}) {
        RemoveLeafKeepsTree(s.files, p);
      }
    }
  }

  /** `write_file` over a non-empty directory succeeds and turns it into a File that still
      has children; a `delete` of that File then removes it alone and orphans the children. */
  lemma OverwriteThenDeleteOrphans(s: State, p: string, contents: string, now: nat, child: string)
    requires IsTree(s.files) && s.available && p != "/"
    requires p in s.files && s.files[p].fileType == Directory && child in Children(s.files, p)
    ensures var (w, r) := WriteAt(s, p, contents, now);
      r.Ok? && IsTree(w.files) && w.files[p].fileType == File &&
      !IsTree(DeleteAt(w, p, false).0.files)
  {
    ParentWellFormed(p);
    WriteKeepsTree(s, p, contents, now);
    var w := WriteAt(s, p, contents, now).0;
    NormalizeWellFormed(p);
    DeleteFiles(w, p, false);
    var d := DeleteAt(w, p, false).0;
    ChildIffParent(p, child);
    assert child in d.files && Parent(child) == Some(p) && p !in d.files;
  }

  /** `delete` as evidently intended: an entry with children, whatever its type, is removed
      only together with them, so a File left over a directory by `write_file` is refused
      without `recursive` like a non-empty directory. */
  function DeleteIntendedAt(s: State, p: string, recursive: bool): (State, Result<()>) {
    if p in s.files && s.files[p].fileType == File && Children(s.files, p) != {} then
      if recursive then
        var doomed := Descendants(s.files, p);
        var store := if s.available then s.store - BlobKeys(s.files, doomed + {p}) else s.store;
        Save(s.(files := s.files - doomed - {p}, store := store))
      else (s, Err(NotEmpty(p)))
    else DeleteAt(s, p, recursive)
  }

  /** The intended `delete` of any non-root path keeps the tree shape. */
  lemma DeleteIntendedKeepsTree(s: State, p: string, recursive: bool)
    requires IsTree(s.files) && NormalizePath(p) == p && p != "/"
    ensures IsTree(DeleteIntendedAt(s, p, recursive).0.files)
  {
    if p in s.files && s.files[p].fileType == File && Children(s.files, p) != {} {
      if recursive {
        RemoveSubtreeKeepsTree(s.files, p);
      }
    } else {
      DeleteKeepsTree(s, p, recursive);
    }
  }

  /** The root alone is a tree. */
  lemma RootOnlyIsTree(now: nat)
    ensures IsTree(RootOnly(now))
  {
  }

  /** One seeding step of `new`: a normalized path whose parent is present is added alone, as
      an empty directory stamped `now`, and the index is saved. */
  lemma SeedStep(s: State, p: string, now: nat)
    requires s.available && NormalizePath(p) == p && p !in s.files
    requires Parent(p).Some? && Parent(p).value in s.files && FileName(p).Some?
    ensures var files := s.files[p := Metadata(FileName(p).value, Directory, 0, now, now)];
      CreateDir(s, p, true, now) == (State(files, s.store[IndexKey := Snapshot(files)], true), Ok(()))
  {
  }

  /** "/home" is a well-formed path below the root. */
  lemma PathHome()
    ensures WellFormed("/home") && Parent("/home") == Some("/")
  {
    ChildPath("/", "home", "/home");
  }

  /** "/applications" is a well-formed path below the root. */
  lemma PathApplications()
    ensures WellFormed("/applications") && Parent("/applications") == Some("/")
  {
    ChildPath("/", "applications", "/applications");
  }

  /** "/home/documents" is a well-formed path below "/home". */
  lemma PathDocuments()
    ensures WellFormed("/home/documents") && Parent("/home/documents") == Some("/home")
  {
    PathHome();
    ChildPath("/home", "documents", "/home/documents");
  }

  /** "/home/pictures" is a well-formed path below "/home". */
  lemma PathPictures()
    ensures WellFormed("/home/pictures") && Parent("/home/pictures") == Some("/home")
  {
    PathHome();
    ChildPath("/home", "pictures", "/home/pictures");
  }

  /** Four paths shaped like the ones `new` seeds: normalized, named, three below the root and
      one below the first. */
  predicate SeedShape(a: string, b: string, c: string, d: string) {
    NormalizePath(a) == a && NormalizePath(b) == b && NormalizePath(c) == c && NormalizePath(d) == d &&
    FileName(a).Some? && FileName(b).Some? && FileName(c).Some? && FileName(d).Some? &&
    Parent(a) == Some("/") && Parent(d) == Some("/") && Parent(b) == Some(a) && Parent(c) == Some(a) &&
    a != "/" && b != c && d != a && d != b && d != c
  }

  /** Seeding four paths shaped like the seeded ones into an index holding the root directory
      alone succeeds when storage is available, and leaves exactly those five keys, all
      directories. */
  lemma SeedAdds(s0: State, a: string, b: string, c: string, d: string, now: nat)
    requires s0.available && s0.files.Keys == {"/"} && s0.files["/"].fileType == Directory
    requires SeedShape(a, b, c, d)
    ensures Seed(s0, a, b, c, d, now).Ok?
    ensures var files := Seed(s0, a, b, c, d, now).value.files;
      files.Keys == {"/", a, b, c, d} && forall k :: k in files ==> files[k].fileType == Directory
  {
    SeedFirstHalf(s0, a, b, c, d, now);
    var s2 := CreateDir(CreateDir(s0, a, true, now).0, b, true, now).0;
    SeedSecondHalf(s2, a, b, c, d, now);
  }

  /** The first two seeding steps add `a` and `b` to the root. */
  lemma SeedFirstHalf(s0: State, a: string, b: string, c: string, d: string, now: nat)
    requires s0.available && s0.files.Keys == {"/"} && s0.files["/"].fileType == Directory
    requires SeedShape(a, b, c, d)
    ensures var (s1, r1) := CreateDir(s0, a, true, now);
      var (s2, r2) := CreateDir(s1, b, true, now);
      r1.Ok? && r2.Ok? && s2.available && s2.files.Keys == {"/", a, b} && AllDirectories(s2.files)
  {
    SeedTwoSteps(s0, a, b, "/", a, now);
  }

  /** The last two seeding steps add `c` and `d` after `a` and `b`. */
  lemma SeedSecondHalf(s2: State, a: string, b: string, c: string, d: string, now: nat)
    requires s2.available && s2.files.Keys == {"/", a, b} && AllDirectories(s2.files)
    requires SeedShape(a, b, c, d)
    ensures var (s3, r3) := CreateDir(s2, c, true, now);
      var (s4, r4) := CreateDir(s3, d, true, now);
      r3.Ok? && r4.Ok? && s4.available && s4.files.Keys == {"/", a, b, c, d} && AllDirectories(s4.files)
  {
    SeedTwoSteps(s2, c, d, a, "/", now);
    assert s2.files.Keys + {c, d} == {"/", a, b, c, d};
  }

  /** Two seeding steps, each adding a directory whose parent is present and that is not. */
  lemma SeedTwoSteps(s: State, p1: string, p2: string, q1: string, q2: string, now: nat)
    requires s.available && q1 in s.files && q2 in s.files.Keys + {p1}
    requires NormalizePath(p1) == p1 && Parent(p1) == Some(q1) && FileName(p1).Some? && p1 !in s.files
    requires NormalizePath(p2) == p2 && Parent(p2) == Some(q2) && FileName(p2).Some? && p2 !in s.files && p2 != p1
    ensures var (s1, r1) := CreateDir(s, p1, true, now);
      var (s2, r2) := CreateDir(s1, p2, true, now);
      r1.Ok? && r2.Ok? && s2.available && s2.files.Keys == s.files.Keys + {p1, p2} &&
      (AllDirectories(s.files) ==> AllDirectories(s2.files))
  {
    SeedStepKeys(s, p1, now);
    SeedStepKeys(CreateDir(s, p1, true, now).0, p2, now);
  }

  /** Every entry of the index is a directory. */
  predicate AllDirectories(files: Index) {
    forall k :: k in files ==> files[k].fileType == Directory
  }

  /** One seeding step adds exactly its directory and keeps storage available. */
  lemma SeedStepKeys(s: State, p: string, now: nat)
    requires s.available && NormalizePath(p) == p && p !in s.files
    requires Parent(p).Some? && Parent(p).value in s.files && FileName(p).Some?
    ensures var (s1, r) := CreateDir(s, p, true, now);
      r.Ok? && s1.available && s1.files.Keys == s.files.Keys + {p} &&
      (AllDirectories(s.files) ==> AllDirectories(s1.files))
  {
    SeedStep(s, p, now);
  }

  /** Seeding fails when storage is unavailable, with that error: the first step already fails. */
  lemma SeedUnavailable(s0: State, a: string, b: string, c: string, d: string, now: nat)
    requires !s0.available && s0.files.Keys == {"/"}
    requires SeedShape(a, b, c, d)
    ensures Seed(s0, a, b, c, d, now) == Err(StorageUnavailable)
  {
    assert a !in s0.files;
    assert CreateDir(s0, a, true, now) == CreateDirAt(s0, a, true, now);
    assert CreateDirAt(s0, a, true, now) == AddDirectory(s0, a, now);
  }

  /** An index over "/" and four well-formed paths, each one's parent among them, is a tree. */
  lemma ShapeIsTree(files: Index, a: string, b: string, c: string, d: string)
    requires files.Keys == {"/", a, b, c, d} && files["/"].fileType == Directory
    requires WellFormed(a) && WellFormed(b) && WellFormed(c) && WellFormed(d)
    requires Parent(a) == Some("/") && Parent(d) == Some("/") && Parent(b) == Some(a) && Parent(c) == Some(a)
    ensures IsTree(files)
  {
  }

  /** With storage available and no stored index, `new` succeeds and holds exactly the root,
      /home, /home/documents, /home/pictures and /applications. */
  lemma NewSeeds(store: Store, now: nat)
    requires !(IndexKey in store && store[IndexKey].Snapshot?)
    ensures New(store, true, now).Ok?
    ensures New(store, true, now).value.files.Keys == {"/", "/home", "/home/documents", "/home/pictures", "/applications"}
  {
    SeedFacts();
    SeedAdds(State(RootOnly(now), store, true), "/home", "/home/documents", "/home/pictures", "/applications", now);
  }

  /** Every entry `new` seeds is a directory. */
  lemma NewSeedsDirectories(store: Store, now: nat)
    requires !(IndexKey in store && store[IndexKey].Snapshot?)
    ensures New(store, true, now).Ok?
    ensures var files := New(store, true, now).value.files;
      forall k :: k in files ==> files[k].fileType == Directory
  {
    SeedFacts();
    SeedAdds(State(RootOnly(now), store, true), "/home", "/home/documents", "/home/pictures", "/applications", now);
  }

  /** What `new` seeds is a tree. */
  lemma NewIsTree(store: Store, now: nat)
    requires !(IndexKey in store && store[IndexKey].Snapshot?)
    ensures New(store, true, now).Ok? && IsTree(New(store, true, now).value.files)
  {
    NewSeeds(store, now);
    NewSeedsDirectories(store, now);
    var files := New(store, true, now).value.files;
    PathHome();
    PathApplications();
    PathDocuments();
    PathPictures();
    ShapeIsTree(files, "/home", "/home/documents", "/home/pictures", "/applications");
  }

  /** The seeded paths are in normal form, have file names, and have the root or /home as
      parent. */
  lemma SeedFacts()
    ensures SeedShape("/home", "/home/documents", "/home/pictures", "/applications")
  {
    PathHome();
    PathApplications();
    PathDocuments();
    PathPictures();
    SeedNormal("/home");
    SeedNormal("/applications");
    SeedNormal("/home/documents");
    SeedNormal("/home/pictures");
  }

  /** A well-formed path other than the root is in normal form and has a file name. */
  lemma SeedNormal(p: string)
    requires WellFormed(p) && p != "/"
    ensures NormalizePath(p) == p && FileName(p).Some?
  {
    NormalizeWellFormed(p);
    ParentWellFormed(p);
  }

  /** `new` fails exactly when storage is unavailable, and then with that error. */
  lemma NewFailsIffUnavailable(store: Store, available: bool, now: nat)
    ensures New(store, available, now).Err? <==> !available
    ensures New(store, available, now).Err? ==> New(store, available, now).error == StorageUnavailable
  {
    if !available {
      NewUnavailable(store, now);
    } else if !(IndexKey in store && store[IndexKey].Snapshot?) {
      NewSeeds(store, now);
    }
  }

  /** Without storage, `new` fails with `StorageUnavailable`: the stored index cannot be read, and
      the first seeding step cannot save. */
  lemma NewUnavailable(store: Store, now: nat)
    ensures New(store, false, now) == Err(StorageUnavailable)
  {
    SeedFacts();
    SeedUnavailable(State(RootOnly(now), store, false), "/home", "/home/documents", "/home/pictures", "/applications", now);
  }
}
