/** Facts about the path functions of FsModel on well-formed absolute paths. On those without
    "." or ".." components the last-'/' rule for parent and file name agrees with
    `std::path::Path`; the standard library gives no file name for a final "..", for instance. */
module FsPaths {
  import opened Text
  import opened FsModel

  /** An absolute path with no empty component, no trailing '/', and no whitespace at the end of
      a component: "/" itself, or '/' followed by names separated by single '/'s. */
  predicate WellFormed(p: string) {
    p == "/" ||
    (|p| >= 2 && p[0] == '/' && p[|p| - 1] != '/' && !IsWhitespace(p[|p| - 1]) &&
     forall i :: 1 <= i < |p| ==> p[i] == '/' ==> p[i - 1] != '/' && !IsWhitespace(p[i - 1]))
  }

  /** A well-formed path is its own normal form, so every operation addresses it as given. */
  lemma NormalizeWellFormed(p: string)
    requires WellFormed(p)
    ensures NormalizePath(p) == p
  {
    assert !IsWhitespace(p[0]);
    TrimSpec(p);
  }

  /** Input that is empty or all whitespace names the root. */
  lemma NormalizeBlank(path: string)
    requires AllWhitespace(path)
    ensures NormalizePath(path) == "/"
  {
    TrimSpec(path);
  }

  /** The last '/' of `a + b`, when `a` ends in '/' and `b` has none, is the last character of `a`. */
  lemma LastSlashSplit(a: string, b: string)
    requires a != [] && a[|a| - 1] == '/' && '/' !in b
    ensures LastSlash(a + b) == Some(|a| - 1)
  {
    var s := a + b;
    assert s[|a| - 1] == '/';
    assert s[|a|..] == b;
  }

  /** The prefix of a well-formed path's children ends in '/' and is longer than the path. */
  lemma DirPrefixWellFormed(p: string)
    requires WellFormed(p)
    ensures DirPrefix(p) == (if p == "/" then "/" else p + "/")
    ensures |DirPrefix(p)| > 0 && DirPrefix(p)[|DirPrefix(p)| - 1] == '/'
  {
  }

  /** The text before an inner '/' of a well-formed path is a well-formed path. */
  lemma WellFormedPrefix(k: string, i: nat)
    requires WellFormed(k) && 0 < i < |k| && k[i] == '/'
    ensures i >= 2 && WellFormed(k[..i])
  {
    var q := k[..i];
    assert k[i - 1] != '/' && !IsWhitespace(k[i - 1]);
    forall j | 1 <= j < |q| && q[j] == '/' ensures q[j - 1] != '/' && !IsWhitespace(q[j - 1]) {
      assert q[j] == k[j] && q[j - 1] == k[j - 1];
    }
  }

  /** Every well-formed path but the root splits into a well-formed parent, the separator
      `DirPrefix` adds, and a non-empty name without '/'; that name is its `FileName`. */
  lemma ParentWellFormed(k: string)
    requires WellFormed(k) && k != "/"
    ensures Parent(k).Some? && FileName(k).Some?
    ensures WellFormed(Parent(k).value)
    ensures k == DirPrefix(Parent(k).value) + FileName(k).value
    ensures FileName(k).value != [] && '/' !in FileName(k).value
  {
    assert k[0] == '/';
    var i := LastSlash(k).value;
    assert k == k[..i + 1] + k[i + 1..];
    if i > 0 {
      WellFormedPrefix(k, i);
      assert DirPrefix(k[..i]) == k[..i + 1];
    }
  }

  /** A name without '/' appended to the prefix of a well-formed path has that path as parent
      and that name as file name. */
  lemma ParentOfChild(q: string, name: string)
    requires WellFormed(q) && name != [] && '/' !in name
    ensures Parent(DirPrefix(q) + name) == Some(q)
    ensures FileName(DirPrefix(q) + name) == Some(name)
  {
    DirPrefixWellFormed(q);
    var pre := DirPrefix(q);
    var k := pre + name;
    LastSlashSplit(pre, name);
    assert k[|pre|..] == name;
    if q != "/" {
      assert k[..|pre| - 1] == q;
    }
  }

  /** A non-empty name without '/' and without whitespace at its end, appended to the prefix of
      a well-formed path, is a well-formed path. */
  lemma ChildWellFormed(q: string, name: string)
    requires WellFormed(q) && name != [] && '/' !in name && !IsWhitespace(name[|name| - 1])
    ensures WellFormed(DirPrefix(q) + name)
  {
    DirPrefixWellFormed(q);
    var pre := DirPrefix(q);
    var k := pre + name;
    forall i | 1 <= i < |k| && k[i] == '/' ensures k[i - 1] != '/' && !IsWhitespace(k[i - 1]) {
      if i < |pre| {
        assert q != "/" && i <= |q|;
        assert k[i - 1] == q[i - 1];
      }
    }
    assert k[|k| - 1] == name[|name| - 1];
  }

  /** `p`, spelled as `name` below the well-formed path `q`, is well-formed with parent `q`. */
  lemma ChildPath(q: string, name: string, p: string)
    requires WellFormed(q) && name != [] && '/' !in name && !IsWhitespace(name[|name| - 1])
    requires p == DirPrefix(q) + name
    ensures WellFormed(p) && Parent(p) == Some(q)
  {
    ChildWellFormed(q, name);
    ParentOfChild(q, name);
  }

  /** The child test `list_directory` applies is the parent relation: on well-formed paths,
      `k` is listed under `p` exactly when `p` is the parent of `k`. */
  lemma ChildIffParent(p: string, k: string)
    requires WellFormed(p) && WellFormed(k)
    ensures IsDirectChild(p, k) <==> Parent(k) == Some(p)
  {
    var prefix := DirPrefix(p);
    DirPrefixWellFormed(p);
    if IsDirectChild(p, k) {
      var rest := k[|prefix|..];
      assert k == prefix + rest;
      LastSlashSplit(prefix, rest);
      if p != "/" {
        assert k[..|prefix| - 1] == p;
      }
    }
    if Parent(k) == Some(p) {
      ParentWellFormed(k);
      var name := FileName(k).value;
      assert k == prefix + name;
      assert k[..|prefix|] == prefix && k[|prefix|..] == name;
    }
  }

  /** A key below a descendant of `p` is itself a descendant of `p`. */
  lemma DescendantTransitive(p: string, q: string, k: string)
    requires WellFormed(p) && WellFormed(q) && WellFormed(k) && k != "/"
    requires IsDescendant(p, q) && Parent(k) == Some(q)
    ensures IsDescendant(p, k)
  {
    DirPrefixWellFormed(p);
    ParentWellFormed(k);
    DirPrefixWellFormed(q);
    var prefix := DirPrefix(p);
    assert k == q + "/" + FileName(k).value;
    assert k[..|prefix|] == q[..|prefix|];
  }

  /** Content keys of distinct paths are distinct, and no content key is the index key. */
  lemma ContentKeyInjective(p: string, q: string)
    ensures ContentKey(p) == ContentKey(q) <==> p == q
    ensures ContentKey(p) != IndexKey
  {
    if ContentKey(p) == ContentKey(q) {
      assert p == ContentKey(p)[|ContentPrefix|..];
    }
    assert |ContentKey(p)| > |IndexKey|;
  }
}
