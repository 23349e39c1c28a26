/** The filesystem as the two walks see it: one listing per directory path,
    each listing mapping the names in that directory to a subdirectory or a
    file. Directories are never renamed by the walks, so the set of directory
    paths stays fixed while listings change. */
module FileTree {

  type Name = string

  /** A directory path, as the names leading to it from the root. */
  type Path = seq<Name>

  /** The outcome of an attempt to read or write a file: granted, or refused
      with an error code such as `EACCES` or `EISDIR`. */
  datatype Access = Granted | Denied(code: string)

  /** A directory entry. `stamp` counts the writes the file has received, so
      that "not rewritten" is observable; `read` and `write` say whether the
      file can be read as text and written. */
  datatype Entry =
    | Dir
    | File(content: string, stamp: nat, read: Access, write: Access)

  type Listing = map<Name, Entry>

  type Tree = map<Path, Listing>

  /** The names of the subdirectories in a listing. */
  function DirNames(l: Listing): set<Name> {
    set n | n in l && l[n].Dir?
  }

  /** `p` is `d` or lies below it. */
  predicate Within(d: Path, p: Path) {
    |d| <= |p| && p[..|d|] == d
  }

  /** `p` lies strictly below `d`. */
  predicate Below(d: Path, p: Path) {
    |d| < |p| && p[..|d|] == d
  }

  /** Every subdirectory named in a listing has its own listing, and every
      listed directory is reached from the root through subdirectory entries. */
  predicate WellFormed(t: Tree) {
    && (forall p, n | p in t && n in DirNames(t[p]) :: p + [n] in t)
    && (forall p, k | p in t && 0 <= k < |p| :: p[..k] in t && p[k] in DirNames(t[p[..k]]))
  }

  /** Same directories, and the same subdirectory names in each. */
  predicate SameShape(t: Tree, u: Tree) {
    t.Keys == u.Keys && forall p | p in t :: DirNames(t[p]) == DirNames(u[p])
  }

  /** The directory paths strictly below `d`; a recursive walk shrinks it. */
  function DirsBelow(t: Tree, d: Path): set<Path> {
    set p | p in t && Below(d, p)
  }

  lemma SameShapeWellFormed(t: Tree, u: Tree)
    requires WellFormed(t) && SameShape(t, u)
    ensures WellFormed(u)
  {
    forall p, k | p in u && 0 <= k < |p|
      ensures p[..k] in u && p[k] in DirNames(u[p[..k]])
    {
      assert p[..k] in t && p[k] in DirNames(t[p[..k]]);
    }
  }

  lemma WithinChild(d: Path, x: Name, p: Path)
    ensures Within(d + [x], p) <==> Below(d, p) && p[|d|] == x
  {
    if Below(d, p) && p[|d|] == x {
      assert p[..|d| + 1] == p[..|d|] + [p[|d|]];
    }
    if Within(d + [x], p) {
      assert p[..|d|] == p[..|d| + 1][..|d|];
    }
  }

  /** In a well-formed tree, a directory below `d` is reached through a
      subdirectory entry of `d`. */
  lemma BelowThroughChild(t: Tree, d: Path, p: Path)
    requires WellFormed(t) && p in t && Below(d, p)
    ensures d in t && p[|d|] in DirNames(t[d])
  {
    assert p[..|d|] in t && p[|d|] in DirNames(t[p[..|d|]]);
  }

  /** Walking into a subdirectory shrinks the set of directories left. */
  lemma DirsBelowShrinks(t: Tree, d: Path, x: Name)
    requires d + [x] in t
    ensures DirsBelow(t, d + [x]) < DirsBelow(t, d)
  {
    forall p | p in DirsBelow(t, d + [x])
      ensures p in DirsBelow(t, d)
    {
      WithinChild(d, x, p);
    }
    assert (d + [x])[..|d|] == d;
    assert d + [x] in DirsBelow(t, d);
  }

  /** The directories below `d` depend only on which directories exist. */
  lemma DirsBelowSameKeys(t: Tree, u: Tree, d: Path)
    requires t.Keys == u.Keys
    ensures DirsBelow(t, d) == DirsBelow(u, d)
  {
  }
}
