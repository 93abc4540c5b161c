/** `FileSystem` of `src/filesystem.rs`: the index is a field that the mutating operations update
    in place, and the host storage is a second map field. Each method is proved to leave the
    object in the state, and to return the result, that the matching FsModel function gives. */
module Filesystem {
  import opened Text
  import opened FsModel

  lemma EnumeratesAppend(ks: seq<string>, s: set<string>, k: string)
    requires Enumerates(ks, s) && k !in s
    ensures Enumerates(ks + [k], s + {k})
  {
  }

  lemma EnumeratesEmpty(ks: seq<string>, s: set<string>)
    requires Enumerates(ks, s)
    ensures |ks| == 0 <==> s == {}
  {
    if |ks| != 0 {
      assert ks[0] in s;
    }
  }

  class FileSystem {
    var files: Index
    /** The host's local storage, shared by every key of the application. */
    var store: Store
    /** Whether the host grants access to local storage (`get_storage` returns `Some`). */
    const available: bool

    ghost function Model(): State
      reads this
    {
      State(files, store, available)
    }

    constructor (files: Index, store: Store, available: bool)
      ensures Model() == State(files, store, available)
    {
      this.files := files;
      this.store := store;
      this.available := available;
    }

    /** `new`. */
    static method New(store: Store, available: bool, now: nat) returns (r: Result<FileSystem>)
      ensures r.Ok? <==> FsModel.New(store, available, now).Ok?
      ensures r.Ok? ==> fresh(r.value) && r.value.Model() == FsModel.New(store, available, now).value
      ensures r.Err? ==> r.error == FsModel.New(store, available, now).error
    {
      if available && IndexKey in store && store[IndexKey].Snapshot? {
        var fs := new FileSystem(store[IndexKey].index, store, available);
        return Ok(fs);
      }
      var fs := new FileSystem(RootOnly(now), store, available);
      var r1 := fs.CreateDirectory("/home", true, now);
      if r1.Err? { return Err(r1.error); }
      var r2 := fs.CreateDirectory("/home/documents", true, now);
      if r2.Err? { return Err(r2.error); }
      var r3 := fs.CreateDirectory("/home/pictures", true, now);
      if r3.Err? { return Err(r3.error); }
      var r4 := fs.CreateDirectory("/applications", true, now);
      if r4.Err? { return Err(r4.error); }
      var r5 := fs.Save();
      if r5.Err? { return Err(r5.error); }
      return Ok(fs);
    }

    /** `save`. */
    method Save() returns (r: Result<()>)
      modifies this
      ensures (Model(), r) == FsModel.Save(old(Model()))
    {
      if available {
        store := store[IndexKey := Snapshot(files)];
        r := Ok(());
      } else {
        r := Err(StorageUnavailable);
      }
    }

    /** `list_directory`: the metadata of the direct children of a directory, in the order in
        which the index is visited; `keys` are their paths. */
    method ListDirectory(path: string) returns (r: Result<seq<Metadata>>, ghost keys: seq<string>)
      ensures r.Err? <==> Listing(files, path).Err?
      ensures r.Err? ==> r.error == Listing(files, path).error
      ensures r.Ok? ==> Enumerates(keys, Listing(files, path).value) && |r.value| == |keys|
      ensures r.Ok? ==> forall i :: 0 <= i < |keys| ==> keys[i] in files && r.value[i] == files[keys[i]]
    {
      keys := [];
      var p := NormalizePath(path);
      if p !in files {
        return Err(NoSuchDirectory(p)), keys;
      }
      if files[p].fileType != Directory {
        return Err(NotADirectory(p)), keys;
      }
      var listed;
      listed, keys := CollectChildren(p);
      r := Ok(listed);
    }

    /** The loop of `list_directory`: visits every key of the index once and keeps the
        metadata of the direct children of `p`. */
    method CollectChildren(p: string) returns (listed: seq<Metadata>, ghost keys: seq<string>)
      ensures Enumerates(keys, Children(files, p)) && |listed| == |keys|
      ensures forall i :: 0 <= i < |keys| ==> keys[i] in files && listed[i] == files[keys[i]]
    {
      var prefix := DirPrefix(p);
      ghost var children := Children(files, p);
      listed, keys := [], [];
      var rest := files.Keys;
      while rest != {}
        invariant rest <= files.Keys
        invariant |listed| == |keys|
        invariant forall i :: 0 <= i < |keys| ==> keys[i] in files && listed[i] == files[keys[i]]
        invariant Enumerates(keys, children - rest)
      {
        var k :| k in rest;
        if k != p && StartsWith(k, prefix) && '/' !in k[|prefix|..] {
          assert k in children;
          EnumeratesAppend(keys, children - rest, k);
          assert children - (rest - {k}) == (children - rest) + {k};
          listed := listed + [files[k]];
          keys := keys + [k];
        } else {
          assert children - (rest - {k}) == children - rest;
        }
        rest := rest - {k};
      }
      assert children - rest == children;
    }

    /** `create_directory`. */
    method CreateDirectory(path: string, createParents: bool, now: nat) returns (r: Result<()>)
      modifies this
      ensures (Model(), r) == CreateDir(old(Model()), path, createParents, now)
      decreases |NormalizePath(path)|
    {
      var p := NormalizePath(path);
      if p in files {
        return Err(AlreadyExists(p));
      }
      var parent := Parent(p);
      if parent.None? {
        return Err(InvalidPath);
      }
      if createParents {
        if parent.value != "" && parent.value != "/" && parent.value !in files {
          r := CreateDirectory(parent.value, true, now);
          if r.Err? {
            return;
          }
        }
      } else {
        if parent.value != "" && parent.value != "/" && parent.value !in files {
          return Err(ParentMissing(parent.value));
        }
      }
      var name := FileName(p);
      if name.None? {
        return Err(InvalidPath);
      }
      files := files[p := Metadata(name.value, Directory, 0, now, now)];
      r := Save();
    }

    /** `write_file`. */
    method WriteFile(path: string, contents: string, now: nat) returns (r: Result<()>)
      modifies this
      ensures (Model(), r) == Write(old(Model()), path, contents, now)
    {
      var p := NormalizePath(path);
      var parent := Parent(p);
      if parent.None? {
        return Err(InvalidPath);
      }
      if parent.value != "" && parent.value != "/" && parent.value !in files {
        return Err(ParentMissing(parent.value));
      }
      var name := FileName(p);
      if name.None? {
        return Err(InvalidPath);
      }
      var created := if p in files then files[p].created else now;
      files := files[p := Metadata(name.value, File, Utf8Len(contents), created, now)];
      if !available {
        return Err(StorageUnavailable);
      }
      store := store[ContentKey(p) := Blob(contents)];
      r := Save();
    }

    /** `read_file`. */
    method ReadFile(path: string) returns (r: Result<string>)
      ensures r == Read(Model(), path)
    {
      var p := NormalizePath(path);
      if p !in files {
        return Err(NoSuchFile(p));
      }
      if files[p].fileType != File {
        return Err(NotAFile(p));
      }
      if !available {
        return Err(StorageUnavailable);
      }
      var key := ContentKey(p);
      if key in store && store[key].Blob? {
        r := Ok(store[key].text);
      } else {
        r := Err(ReadFailed(p));
      }
    }

    /** The first loop of a recursive `delete`: removes the content blob of every file among
        `doomed`; missing blobs are skipped. */
    method RemoveBlobs(doomed: set<string>)
      requires doomed <= files.Keys
      modifies this
      ensures files == old(files) && store == old(store) - BlobKeys(files, doomed)
    {
      var todo := doomed;
      while todo != {}
        invariant todo <= doomed
        invariant files == old(files)
        invariant store == old(store) - BlobKeys(files, doomed - todo)
      {
        var k :| k in todo;
        if files[k].fileType == File {
          store := store - {ContentKey(k)};
        }
        assert BlobKeys(files, doomed - (todo - {k})) ==
          BlobKeys(files, doomed - todo) + (if files[k].fileType == File then {ContentKey(k)} else {});
        todo := todo - {k};
      }
      assert doomed - todo == doomed;
    }

    /** The second loop of a recursive `delete`: removes every key among `doomed`. */
    method RemoveEntries(doomed: set<string>)
      modifies this
      ensures files == old(files) - doomed && store == old(store)
    {
      var todo := doomed;
      while todo != {}
        invariant todo <= doomed
        invariant files == old(files) - (doomed - todo)
        invariant store == old(store)
      {
        var k :| k in todo;
        assert doomed - (todo - {k}) == (doomed - todo) + {k};
        files := files - {k};
        todo := todo - {k};
      }
      assert doomed - todo == doomed;
    }

    /** `delete`: the blobs of the files below a recursively deleted directory are removed
        first, then their index entries, then the entry itself, and the index is saved once. */
    method DeleteEntry(path: string, recursive: bool) returns (r: Result<()>)
      modifies this
      ensures (Model(), r) == Delete(old(Model()), path, recursive)
    {
      var p := NormalizePath(path);
      if p !in files {
        return Err(NoSuchEntry(p));
      }
      if files[p].fileType == Directory {
        NormalizeSpec(path);
        r := DeleteDirectory(p, recursive);
      } else {
        if available {
          store := store - {ContentKey(p)};
        }
        files := files - {p};
        r := Save();
      }
    }

    /** The directory branch of `delete`. */
    method DeleteDirectory(p: string, recursive: bool) returns (r: Result<()>)
      requires NormalizePath(p) == p && p in files && files[p].fileType == Directory
      modifies this
      ensures (Model(), r) == DeleteAt(old(Model()), p, recursive)
    {
      var children, keys := ListDirectory(p);
      // `p` exists and is a directory, so the listing cannot fail.
      assert children.Ok?;
      EnumeratesEmpty(keys, Children(files, p));
      if |children.value| != 0 && !recursive {
        return Err(NotEmpty(p));
      }
      if recursive {
        var prefix := DirPrefix(p);
        var doomed := set k | k in files && k != p && StartsWith(k, prefix);
        assert doomed == Descendants(files, p);
        if available {
          RemoveBlobs(doomed);
        }
        RemoveEntries(doomed);
      }
      files := files - {p};
      r := Save();
    }
  }
}
