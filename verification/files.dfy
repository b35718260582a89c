/** The file system as the script sees it: a finite set of file paths. */
module Files {

  /** The regular files present on disk. */
  type FileSet = set<string>

  /** `os.path.join` of a directory and a relative name. */
  function Join(dir: string, name: string): string {
    dir + "/" + name
  }

  /** True when `path` lies somewhere below directory `dir`. */
  predicate InDir(path: string, dir: string) {
    dir + "/" <= path
  }

  /** The files lying below `dir`. */
  function FilesIn(fs: FileSet, dir: string): (r: FileSet)
    ensures r <= fs
    ensures forall p :: p in r <==> p in fs && InDir(p, dir)
  {
    set p | p in fs && InDir(p, dir)
  }

  /** A path below a sub-folder lies below the folder. */
  lemma InSubDir(path: string, dir: string, name: string)
    requires InDir(path, Join(dir, name))
    ensures InDir(path, dir)
  {
    assert (dir + "/") == Join(dir, name)[..|dir| + 1];
  }

  /** Two prefixes of the same sequence are prefixes of each other, one way
      or the other. */
  lemma PrefixesComparable<T>(a: seq<T>, b: seq<T>, s: seq<T>)
    requires a <= s && b <= s
    ensures a <= b || b <= a
  {
    if |a| <= |b| {
      assert a == s[..|a|] == b[..|a|];
    } else {
      assert b == s[..|b|] == a[..|b|];
    }
  }

  /** A common head can be dropped from both sides of a prefix relation. */
  lemma StripCommonPrefix<T>(c: seq<T>, x: seq<T>, y: seq<T>)
    requires c + x <= c + y
    ensures x <= y
  {
    assert x == (c + x)[|c|..] == (c + y)[|c|..|c| + |x|] == y[..|x|];
  }

  /** A subset is no larger than its superset. */
  lemma SubsetSize<T>(a: set<T>, b: set<T>)
    requires a <= b
    ensures |a| <= |b|
  {
    assert b == a + (b - a);
    assert a * (b - a) == {};
  }
}
