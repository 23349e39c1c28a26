/** What the template renamer does to one listing and to a tree: every file
    whose name ends in the marker suffix gets its new name, every other entry
    keeps its name, and all entries keep their contents. */
module Rename {
  import opened Names
  import opened FileTree

  /** Entry `n` of `l` is a file that the renamer renames. */
  predicate IsTemplateFile(l: Listing, n: Name) {
    n in l && l[n].File? && EndsWith(n, Suffix)
  }

  /** The name entry `n` of `l` has once the renamer has visited it. */
  function Target(l: Listing, n: Name): Name {
    if IsTemplateFile(l, n) then NewName(n) else n
  }

  /** The name entry `n` has once the renamer has visited the entries in `done`. */
  function TargetIn(l: Listing, done: set<Name>, n: Name): Name {
    if n in done then Target(l, n) else n
  }

  /** The renames in a listing cannot collide: no two entries end up with the
      same name, no renamed file lands on the name of another entry, and no
      file is named by the bare suffix (which would become the empty name). */
  predicate RenameSafe(l: Listing) {
    && (forall n | n in l && IsTemplateFile(l, n) :: n != Suffix)
    && (forall n, m {:trigger Target(l, n), Target(l, m)} {:trigger Target(l, n), m in l}
          | n in l && m in l && n != m :: Target(l, n) != Target(l, m) && Target(l, n) != m)
  }

  /** Every listing at or below `d` is safe to rename. */
  predicate RenameSafeWithin(t: Tree, d: Path) {
    forall p | p in t && Within(d, p) :: RenameSafe(t[p])
  }

  /** `r` holds each entry of `l` under the name it has once the renamer
      has visited the entries in `done`. */
  ghost predicate Placed(l: Listing, done: set<Name>, r: Listing) {
    forall n | n in l :: TargetIn(l, done, n) in r && r[TargetIn(l, done, n)] == l[n]
  }

  /** `src` names, for every name in `r`, the entry of `l` it came from; so
      `r` holds nothing but entries of `l`. */
  ghost predicate Traced(l: Listing, done: set<Name>, r: Listing, src: map<Name, Name>) {
    && src.Keys == r.Keys
    && forall q | q in r :: src[q] in l && TargetIn(l, done, src[q]) == q
  }

  /** `r` is `l` after the renamer has visited all of it: each entry sits
      under its target name, and nothing else is there. */
  ghost predicate IsRenaming(l: Listing, r: Listing) {
    && (forall n | n in l :: Target(l, n) in r && r[Target(l, n)] == l[n])
    && (forall q | q in r :: exists n | n in l :: Target(l, n) == q)
  }

  /** `u` is `t` with every listing at or below `d` renamed. */
  ghost predicate RenamedTree(t: Tree, d: Path, u: Tree) {
    && u.Keys == t.Keys
    && forall p | p in t :: if Within(d, p) then IsRenaming(t[p], u[p]) else u[p] == t[p]
  }

  /** A map with the entry at `from` moved to `to`, as one rename does. */
  function Moved<V>(m: map<Name, V>, from: Name, to: Name): map<Name, V>
    requires from in m
  {
    (m - {from})[to := m[from]]
  }

  /** Two listings with the same names and the same entries are equal. */
  lemma SameEntries(a: Listing, b: Listing)
    requires forall q | q in a :: q in b && b[q] == a[q]
    requires forall q | q in b :: q in a
    ensures a == b
  {
  }

  /** Every name comes from itself. */
  function Identity(l: Listing): map<Name, Name> {
    map n | n in l :: n
  }

  /** Before the renamer visits anything, the listing is as it was. */
  lemma VisitNone(l: Listing)
    ensures Placed(l, {}, l) && Traced(l, {}, l, Identity(l))
  {
  }

  /** One more visited entry: a template file is moved from its old name to
      its new name, any other entry is left where it is. Either way the entry
      is still in place just before the visit. */
  lemma VisitStep(l: Listing, done: set<Name>, r: Listing, src: map<Name, Name>, x: Name)
    requires RenameSafe(l) && Placed(l, done, r) && Traced(l, done, r, src)
    requires x in l && x !in done
    ensures x in r && r[x] == l[x] && x in src
    ensures IsTemplateFile(l, x) ==>
      var nx := NewName(x);
      Placed(l, done + {x}, Moved(r, x, nx)) && Traced(l, done + {x}, Moved(r, x, nx), Moved(src, x, nx))
    ensures !IsTemplateFile(l, x) ==> Placed(l, done + {x}, r) && Traced(l, done + {x}, r, src)
  {
    assert TargetIn(l, done, x) == x;
    if IsTemplateFile(l, x) {
      VisitMovePlaces(l, done, r, x);
      VisitMoveTraced(l, done, r, src, x);
    } else {
      forall n | n in l
        ensures TargetIn(l, done + {x}, n) == TargetIn(l, done, n)
      {
      }
    }
  }

  lemma VisitMovePlaces(l: Listing, done: set<Name>, r: Listing, x: Name)
    requires RenameSafe(l) && Placed(l, done, r) && x !in done
    requires IsTemplateFile(l, x) && x in r && r[x] == l[x]
    ensures Placed(l, done + {x}, Moved(r, x, NewName(x)))
  {
    var nx := Target(l, x);
    var r' := Moved(r, x, nx);
    forall n | n in l
      ensures TargetIn(l, done + {x}, n) in r' && r'[TargetIn(l, done + {x}, n)] == l[n]
    {
      if n != x {
        var q := TargetIn(l, done, n);
        assert TargetIn(l, done + {x}, n) == q;
        if n in done {
          assert Target(l, n) != nx && Target(l, n) != x;
        } else {
          assert nx != n;
        }
      }
    }
  }

  lemma VisitMoveTraced(l: Listing, done: set<Name>, r: Listing, src: map<Name, Name>, x: Name)
    requires RenameSafe(l) && Traced(l, done, r, src) && x !in done
    requires IsTemplateFile(l, x) && x in r
    ensures Traced(l, done + {x}, Moved(r, x, NewName(x)), Moved(src, x, NewName(x)))
  {
    var nx := NewName(x);
    var r' := Moved(r, x, nx);
    var src' := Moved(src, x, nx);
    forall n | n in l && n != x
      ensures TargetIn(l, done, n) != x
    {
      if n in done {
        assert Target(l, n) != x;
      }
    }
    assert src[x] == x;
    forall q | q in r'
      ensures src'[q] in l && TargetIn(l, done + {x}, src'[q]) == q
    {
      if q != nx {
        var n := src[q];
        assert n != x;
        assert TargetIn(l, done + {x}, n) == TargetIn(l, done, n);
      }
    }
  }

  /** Once every entry has been visited, the listing is the renaming. */
  lemma VisitAll(l: Listing, r: Listing, src: map<Name, Name>)
    requires Placed(l, l.Keys, r) && Traced(l, l.Keys, r, src)
    ensures IsRenaming(l, r)
  {
    forall n | n in l
      ensures TargetIn(l, l.Keys, n) == Target(l, n)
    {
    }
    forall q | q in r
      ensures exists n | n in l :: Target(l, n) == q
    {
      assert Target(l, src[q]) == q;
    }
  }

  /** The listing a renaming produces is determined by the original. */
  lemma RenamingUnique(l: Listing, r1: Listing, r2: Listing)
    requires IsRenaming(l, r1) && IsRenaming(l, r2)
    ensures r1 == r2
  {
    forall q | q in r1
      ensures q in r2 && r2[q] == r1[q]
    {
      var n :| n in l && Target(l, n) == q;
    }
    forall q | q in r2
      ensures q in r1
    {
      var n :| n in l && Target(l, n) == q;
    }
    SameEntries(r1, r2);
  }

  /** A renamed listing no longer has the old names of the renamed files,
      and entries that are not template files, subdirectories included,
      keep their names and entries. */
  lemma RenamingEntries(l: Listing, r: Listing)
    requires RenameSafe(l) && IsRenaming(l, r)
    ensures forall n | IsTemplateFile(l, n) :: n !in r
    ensures forall n | n in l && !IsTemplateFile(l, n) :: n in r && r[n] == l[n]
  {
    forall n | IsTemplateFile(l, n)
      ensures n !in r
    {
      forall m | m in l
        ensures Target(l, m) != n
      {
        if m == n {
          assert |NewName(n)| < |n|;
        } else {
          assert Target(l, m) != Target(l, n);
        }
      }
    }
    forall n | n in l && !IsTemplateFile(l, n)
      ensures n in r && r[n] == l[n]
    {
      assert Target(l, n) == n;
    }
  }

  /** The renamer keeps the subdirectories of a listing as they are. */
  lemma RenamingDirs(l: Listing, r: Listing)
    requires RenameSafe(l) && IsRenaming(l, r)
    ensures DirNames(r) == DirNames(l)
  {
    RenamingEntries(l, r);
    forall q | q in DirNames(r)
      ensures q in DirNames(l)
    {
      var n :| n in l && Target(l, n) == q;
      assert r[q] == l[n];
    }
  }

  /** Renaming keeps every directory and every subdirectory name, so a
      well-formed tree stays well-formed. */
  lemma RenamedTreeShape(t: Tree, d: Path, u: Tree)
    requires RenameSafeWithin(t, d) && RenamedTree(t, d, u)
    ensures SameShape(t, u)
    ensures WellFormed(t) ==> WellFormed(u)
  {
    forall p | p in t
      ensures DirNames(t[p]) == DirNames(u[p])
    {
      if Within(d, p) {
        RenamingDirs(t[p], u[p]);
      }
    }
    if WellFormed(t) {
      SameShapeWellFormed(t, u);
    }
  }

  /** A renamed file can be renamed again only if its original name carried
      the marker twice. */
  lemma RenameTwiceNeedsDoubleMarker(l: Listing, r: Listing, n: Name)
    requires RenameSafe(l) && IsRenaming(l, r) && IsTemplateFile(l, n)
    ensures IsTemplateFile(r, NewName(n)) <==> EndsWith(n, Suffix + Suffix)
  {
    RenamingEntries(l, r);
    NewNameKeepsMarker(n);
  }

  /** When no file name carries the marker twice, the renamed listing has no
      template files left, so renaming it again leaves it as it is. */
  lemma RenameIdempotent(l: Listing, r: Listing)
    requires RenameSafe(l) && IsRenaming(l, r)
    requires forall n | IsTemplateFile(l, n) :: !EndsWith(n, Suffix + Suffix)
    ensures forall q :: !IsTemplateFile(r, q)
    ensures RenameSafe(r) && IsRenaming(r, r)
  {
    RenamingEntries(l, r);
    forall q | q in r
      ensures !IsTemplateFile(r, q)
    {
      var n :| n in l && Target(l, n) == q;
      if IsTemplateFile(l, n) {
        NewNameKeepsMarker(n);
      } else {
        assert q == n && r[q] == l[n];
      }
    }
    forall q | q in r
      ensures Target(r, q) == q
    {
    }
  }

  // ---------------------------------------------------------------------
  // The walk of one directory, part way through its loop.

  /** A listing part way through its renaming keeps its subdirectories. */
  lemma VisitedDirs(l: Listing, done: set<Name>, r: Listing, src: map<Name, Name>)
    requires Placed(l, done, r) && Traced(l, done, r, src)
    ensures DirNames(r) == DirNames(l)
  {
    forall n | n in DirNames(l)
      ensures n in DirNames(r)
    {
      assert TargetIn(l, done, n) == n;
    }
    forall q | q in DirNames(r)
      ensures q in DirNames(l)
    {
      var n := src[q];
      assert r[q] == l[n];
      assert TargetIn(l, done, n) == n;
    }
  }

  /** The tree once the walk of `d` has visited the entries in `done`: the
      listing of `d` is part way through its renaming, traced by `src`; the
      subtrees of visited subdirectories are renamed; the rest is as in `t`. */
  ghost predicate RenameProgress(t: Tree, d: Path, done: set<Name>, src: map<Name, Name>, u: Tree) {
    && d in t && u.Keys == t.Keys
    && Placed(t[d], done, u[d]) && Traced(t[d], done, u[d], src)
    && SubtreesDone(t, d, done, u)
  }

  /** Below `d`, the subtrees of the visited subdirectories are renamed and
      the rest is as in `t`. */
  ghost predicate SubtreesDone(t: Tree, d: Path, done: set<Name>, u: Tree) {
    && t.Keys <= u.Keys
    && forall p | p in t && p != d ::
      if Below(d, p) && p[|d|] in done then IsRenaming(t[p], u[p]) else u[p] == t[p]
  }

  /** Visiting a file of `d` changes nothing below `d`. */
  lemma SubtreesAfterFile(t: Tree, d: Path, done: set<Name>, u: Tree, x: Name, l: Listing)
    requires WellFormed(t) && d in t && x in t[d] && t[d][x].File?
    requires SubtreesDone(t, d, done, u)
    ensures SubtreesDone(t, d, done + {x}, u[d := l])
  {
    forall p | p in t && p != d && Below(d, p)
      ensures p[|d|] != x
    {
      BelowThroughChild(t, d, p);
    }
  }

  lemma ProgressStart(t: Tree, d: Path)
    requires d in t
    ensures RenameProgress(t, d, {}, Identity(t[d]), t)
  {
    VisitNone(t[d]);
  }

  /** Part way through, the tree has the shape it started with. */
  lemma ProgressShape(t: Tree, d: Path, done: set<Name>, src: map<Name, Name>, u: Tree)
    requires RenameSafeWithin(t, d) && RenameProgress(t, d, done, src, u)
    ensures SameShape(t, u)
    ensures WellFormed(t) ==> WellFormed(u)
  {
    forall p | p in t
      ensures DirNames(t[p]) == DirNames(u[p])
    {
      if p == d {
        VisitedDirs(t[d], done, u[d], src);
      } else if Below(d, p) && p[|d|] in done {
        RenamingDirs(t[p], u[p]);
      }
    }
    if WellFormed(t) {
      SameShapeWellFormed(t, u);
    }
  }

  /** Visiting a file of `d`: before the visit the entry is as it was. */
  lemma ProgressAtFile(t: Tree, d: Path, done: set<Name>, src: map<Name, Name>, u: Tree, x: Name)
    requires RenameProgress(t, d, done, src, u)
    requires RenameSafe(t[d]) && x in t[d] && x !in done
    ensures x in u[d] && u[d][x] == t[d][x] && x in src
  {
    VisitStep(t[d], done, u[d], src, x);
  }

  /** Visiting a template file of `d` renames it. */
  lemma ProgressRename(t: Tree, d: Path, done: set<Name>, src: map<Name, Name>, u: Tree, x: Name)
    requires WellFormed(t) && RenameProgress(t, d, done, src, u)
    requires RenameSafe(t[d]) && IsTemplateFile(t[d], x) && x !in done
    ensures x in u[d] && x in src
    ensures RenameProgress(t, d, done + {x}, Moved(src, x, NewName(x)), u[d := Moved(u[d], x, NewName(x))])
  {
    var l := t[d];
    assert TargetIn(l, done, x) == x;
    var nx := NewName(x);
    VisitMovePlaces(l, done, u[d], x);
    VisitMoveTraced(l, done, u[d], src, x);
    SubtreesAfterFile(t, d, done, u, x, Moved(u[d], x, nx));
  }

  /** Visiting any other file of `d` changes nothing. */
  lemma ProgressSkip(t: Tree, d: Path, done: set<Name>, src: map<Name, Name>, u: Tree, x: Name)
    requires WellFormed(t) && RenameProgress(t, d, done, src, u)
    requires RenameSafe(t[d]) && x in t[d] && t[d][x].File? && !IsTemplateFile(t[d], x) && x !in done
    ensures RenameProgress(t, d, done + {x}, src, u)
  {
    VisitStep(t[d], done, u[d], src, x);
    SubtreesAfterFile(t, d, done, u, x, u[d]);
    assert u[d := u[d]] == u;
  }

  /** Walking a subdirectory of `d` renames the subtree below it, which the
      loop has not touched so far. */
  lemma ProgressEnter(t: Tree, d: Path, done: set<Name>, src: map<Name, Name>, u: Tree, x: Name)
    requires WellFormed(t) && RenameSafeWithin(t, d) && RenameProgress(t, d, done, src, u)
    requires x in DirNames(t[d]) && x !in done
    ensures x in u[d] && u[d][x] == Dir
    ensures d + [x] in u && RenameSafeWithin(u, d + [x])
  {
    VisitStep(t[d], done, u[d], src, x);
    forall p | p in u && Within(d + [x], p)
      ensures RenameSafe(u[p])
    {
      WithinChild(d, x, p);
    }
  }

  lemma ProgressDescend(t: Tree, d: Path, done: set<Name>, src: map<Name, Name>, u: Tree, x: Name, v: Tree)
    requires WellFormed(t) && RenameSafeWithin(t, d) && RenameProgress(t, d, done, src, u)
    requires x in DirNames(t[d]) && x !in done
    requires RenamedTree(u, d + [x], v)
    ensures RenameProgress(t, d, done + {x}, src, v)
  {
    VisitStep(t[d], done, u[d], src, x);
    assert !Within(d + [x], d);
    forall p | p in t && p != d
      ensures if Below(d, p) && p[|d|] in done + {x} then IsRenaming(t[p], v[p]) else v[p] == t[p]
    {
      WithinChild(d, x, p);
    }
  }

  /** Once every entry of `d` has been visited, the walk of `d` is over. */
  lemma ProgressEnd(t: Tree, d: Path, src: map<Name, Name>, u: Tree)
    requires WellFormed(t) && d in t && RenameProgress(t, d, t[d].Keys, src, u)
    ensures RenamedTree(t, d, u)
  {
    forall p | p in t
      ensures if Within(d, p) then IsRenaming(t[p], u[p]) else u[p] == t[p]
    {
      if p == d {
        VisitAll(t[d], u[d], src);
      } else if Below(d, p) {
        BelowThroughChild(t, d, p);
      }
    }
  }
}
