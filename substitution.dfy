/** What the placeholder walk does to one entry, one listing and a tree:
    every readable file whose text holds a mapped token gets the substituted
    text written back, and every other entry stays as it was; failures are
    reported unless they say the path is a directory. */
module Substitution {
  import opened Replace
  import opened FileTree

  /** The error code that the walk swallows without a warning. */
  const IsDirectoryCode: string := "EISDIR"

  datatype Option<T> = None | Some(value: T)

  /** A warning printed by the walk: the directory and name of the file it
      could not process. */
  datatype Warning = Warning(dir: Path, name: Name)

  /** The entry once the walk has visited it: a file that can be read is
      substituted; if that set the modified flag and the file can be
      written, the new text is written, which bumps the write count. */
  function SubstEntry(e: Entry, vars: seq<Binding>): (r: Entry)
    ensures r.Dir? <==> e.Dir?
    ensures e.File? ==> r.read == e.read && r.write == e.write
  {
    match e
    case Dir => Dir
    case File(content, stamp, read, write) =>
      if read.Denied? then e
      else
        var (text, modified) := SubstituteAll(content, vars);
        if !modified || write.Denied? then e
        else File(text, stamp + 1, read, write)
  }

  /** The error the walk catches while visiting an entry, if any: a failed
      read, or a failed write of a modified text. */
  function Failure(e: Entry, vars: seq<Binding>): (r: Option<string>)
    ensures r.Some? ==> e.File? && (e.read == Denied(r.value) || e.write == Denied(r.value))
    ensures r.Some? <==> e.File? && (e.read.Denied? || (SubstituteAll(e.content, vars).1 && e.write.Denied?))
  {
    match e
    case Dir => None
    case File(content, _, read, write) =>
      if read.Denied? then Some(read.code)
      else if SubstituteAll(content, vars).1 && write.Denied? then Some(write.code)
      else None
  }

  /** The listing once the walk has visited the entries in `done`. */
  function PartialSubst(l: Listing, done: set<Name>, vars: seq<Binding>): Listing {
    map n | n in l :: if n in done then SubstEntry(l[n], vars) else l[n]
  }

  /** The listing once the walk has visited all of it. */
  function SubstListing(l: Listing, vars: seq<Binding>): Listing {
    PartialSubst(l, l.Keys, vars)
  }

  /** The tree once the walk started at `d` is over. */
  function SubstitutedTree(t: Tree, d: Path, vars: seq<Binding>): Tree {
    map p | p in t :: if Within(d, p) then SubstListing(t[p], vars) else t[p]
  }

  /** No warning appears twice in a stretch of console output. */
  predicate NoRepeats(ws: seq<Warning>) {
    forall i, j | 0 <= i < j < |ws| :: ws[i] != ws[j]
  }

  /** Visiting the entry ends in an error whose code is not the directory
      code, so the walk prints a warning for it. */
  predicate Warns(e: Entry, vars: seq<Binding>) {
    Failure(e, vars).Some? && Failure(e, vars).value != IsDirectoryCode
  }

  /** The walk started at `d` over `t` prints warning `w`. */
  ghost predicate WarnedAt(t: Tree, d: Path, vars: seq<Binding>, w: Warning) {
    w.dir in t && Within(d, w.dir) && w.name in t[w.dir] && Warns(t[w.dir][w.name], vars)
  }

  /** A visited entry is rewritten exactly when it is a readable, writable
      file in which the token of some mapped key occurs; it then holds the
      substituted text. Anything else, unreadable files included, is left as
      it was. */
  lemma SubstEntryWritesOnChange(e: Entry, vars: seq<Binding>)
    requires e.File?
    ensures SubstEntry(e, vars) != e <==>
      && e.read.Granted? && e.write.Granted?
      && exists i :: 0 <= i < |vars| && Occurs(e.content, Token(vars[i].key))
    ensures SubstEntry(e, vars) != e ==>
      SubstEntry(e, vars) == e.(content := SubstituteAll(e.content, vars).0, stamp := e.stamp + 1)
  {
    ModifiedIffSomeToken(e.content, vars);
  }

  /** An unreadable file is skipped, with a warning unless its error code
      says it is a directory. */
  lemma UnreadableSkipped(e: Entry, vars: seq<Binding>)
    requires e.File? && e.read.Denied?
    ensures SubstEntry(e, vars) == e
    ensures Failure(e, vars) == Some(e.read.code)
    ensures Warns(e, vars) <==> e.read.code != IsDirectoryCode
  {
  }

  /** A readable file in which some token was replaced but that cannot be
      written is left as it was; its error is the write error, and it warns
      exactly when that code is not the directory code. */
  lemma UnwritableSkipped(e: Entry, vars: seq<Binding>)
    requires e.File? && e.read.Granted? && SubstituteAll(e.content, vars).1 && e.write.Denied?
    ensures SubstEntry(e, vars) == e
    ensures Failure(e, vars) == Some(e.write.code)
    ensures Warns(e, vars) <==> e.write.code != IsDirectoryCode
  {
  }

  /** A text that holds no mapped token gives no write and no failure. */
  lemma NoTokenNoEffect(e: Entry, vars: seq<Binding>)
    requires e.File? && forall i | 0 <= i < |vars| :: !Occurs(e.content, Token(vars[i].key))
    ensures SubstEntry(e, vars) == e
    ensures Failure(e, vars) == if e.read.Denied? then Some(e.read.code) else None
  {
    ModifiedIffSomeToken(e.content, vars);
  }

  /** Substitution keeps every name and every subdirectory of a listing. */
  lemma PartialSubstShape(l: Listing, done: set<Name>, vars: seq<Binding>)
    ensures PartialSubst(l, done, vars).Keys == l.Keys
    ensures DirNames(PartialSubst(l, done, vars)) == DirNames(l)
  {
    var r := PartialSubst(l, done, vars);
    assert forall n | n in l :: r[n].Dir? <==> l[n].Dir?;
  }

  /** Substitution keeps the shape of the tree, so a well-formed tree stays
      well-formed. */
  lemma SubstitutedTreeShape(t: Tree, d: Path, vars: seq<Binding>)
    ensures SameShape(t, SubstitutedTree(t, d, vars))
    ensures WellFormed(t) ==> WellFormed(SubstitutedTree(t, d, vars))
  {
    var u := SubstitutedTree(t, d, vars);
    forall p | p in t
      ensures DirNames(t[p]) == DirNames(u[p])
    {
      PartialSubstShape(t[p], t[p].Keys, vars);
    }
    if WellFormed(t) {
      SameShapeWellFormed(t, u);
    }
  }

  /** Substituting with no bindings changes nothing. */
  lemma SubstituteNothing(t: Tree, d: Path)
    ensures SubstitutedTree(t, d, []) == t
  {
    var u := SubstitutedTree(t, d, []);
    forall p | p in t
      ensures u[p] == t[p]
    {
      var l := t[p];
      assert forall n | n in l :: SubstEntry(l[n], []) == l[n];
      assert PartialSubst(l, l.Keys, []) == l;
    }
  }

  // ---------------------------------------------------------------------
  // The walk of one directory, part way through its loop.

  /** The tree once the walk of `d` has visited the entries in `done`, the
      subtrees of visited subdirectories included. */
  function SubstPart(t: Tree, d: Path, vars: seq<Binding>, done: set<Name>): Tree
    requires d in t
  {
    map p | p in t ::
      if p == d then PartialSubst(t[d], done, vars)
      else if Below(d, p) && p[|d|] in done then SubstListing(t[p], vars)
      else t[p]
  }

  /** The warnings printed once the walk of `d` has visited the entries in
      `done`. */
  ghost predicate WarnedPart(t: Tree, d: Path, vars: seq<Binding>, done: set<Name>, w: Warning) {
    && WarnedAt(t, d, vars, w)
    && (w.dir == d ==> w.name in done)
    && (Below(d, w.dir) ==> w.dir[|d|] in done)
  }

  lemma SubstPartStart(t: Tree, d: Path, vars: seq<Binding>)
    requires d in t
    ensures SubstPart(t, d, vars, {}) == t
    ensures forall w :: !WarnedPart(t, d, vars, {}, w)
  {
    var u := SubstPart(t, d, vars, {});
    forall p | p in t
      ensures u[p] == t[p]
    {
      if p == d {
        assert PartialSubst(t[d], {}, vars) == t[d];
      }
    }
    forall w | WarnedAt(t, d, vars, w)
      ensures !WarnedPart(t, d, vars, {}, w)
    {
      if w.dir != d {
        assert |d| < |w.dir|;
      }
    }
  }

  /** Visiting a file of `d` substitutes that one entry. */
  lemma SubstPartFile(t: Tree, d: Path, vars: seq<Binding>, done: set<Name>, x: Name)
    requires WellFormed(t) && d in t && x in t[d] && t[d][x].File? && x !in done
    ensures SubstPart(t, d, vars, done)[d][x] == t[d][x]
    ensures SubstPart(t, d, vars, done + {x})
         == SubstPart(t, d, vars, done)[d := SubstPart(t, d, vars, done)[d][x := SubstEntry(t[d][x], vars)]]
  {
    var u := SubstPart(t, d, vars, done);
    var v := SubstPart(t, d, vars, done + {x});
    var u' := u[d := u[d][x := SubstEntry(t[d][x], vars)]];
    forall p | p in t
      ensures v[p] == u'[p]
    {
      if p == d {
        assert PartialSubst(t[d], done + {x}, vars) == PartialSubst(t[d], done, vars)[x := SubstEntry(t[d][x], vars)];
      } else if Below(d, p) {
        BelowThroughChild(t, d, p);
      }
    }
  }

  /** Visiting a file of `d` adds the warning for it, when there is one. */
  lemma WarnedPartFile(t: Tree, d: Path, vars: seq<Binding>, done: set<Name>, x: Name)
    requires WellFormed(t) && d in t && x in t[d] && t[d][x].File? && x !in done
    ensures forall w :: WarnedPart(t, d, vars, done + {x}, w) <==>
      WarnedPart(t, d, vars, done, w) || (w == Warning(d, x) && Warns(t[d][x], vars))
  {
    forall w
      ensures WarnedPart(t, d, vars, done + {x}, w) <==>
        WarnedPart(t, d, vars, done, w) || (w == Warning(d, x) && Warns(t[d][x], vars))
    {
      if Below(d, w.dir) && w.dir in t {
        BelowThroughChild(t, d, w.dir);
      }
    }
  }

  /** Walking a subdirectory of `d` substitutes the subtree below it. */
  lemma SubstPartDescend(t: Tree, d: Path, vars: seq<Binding>, done: set<Name>, x: Name)
    requires WellFormed(t) && d in t && x in DirNames(t[d]) && x !in done
    ensures d + [x] in t
    ensures SubstitutedTree(SubstPart(t, d, vars, done), d + [x], vars) == SubstPart(t, d, vars, done + {x})
  {
    var u := SubstPart(t, d, vars, done);
    var v := SubstPart(t, d, vars, done + {x});
    var s := SubstitutedTree(u, d + [x], vars);
    forall p | p in t
      ensures s[p] == v[p]
    {
      WithinChild(d, x, p);
      if p == d {
        assert PartialSubst(t[d], done + {x}, vars) == PartialSubst(t[d], done, vars) by {
          assert t[d][x].Dir?;
        }
      }
    }
  }

  /** Walking a subdirectory of `d` adds the warnings of the subtree below
      it, which no earlier visit has touched. */
  lemma WarnedPartDescend(t: Tree, d: Path, vars: seq<Binding>, done: set<Name>, x: Name)
    requires d in t && x in DirNames(t[d]) && x !in done
    ensures forall w :: WarnedAt(SubstPart(t, d, vars, done), d + [x], vars, w) <==> WarnedAt(t, d + [x], vars, w)
    ensures forall w :: WarnedPart(t, d, vars, done + {x}, w) <==>
      WarnedPart(t, d, vars, done, w) || WarnedAt(t, d + [x], vars, w)
  {
    var u := SubstPart(t, d, vars, done);
    forall w
      ensures WarnedAt(u, d + [x], vars, w) <==> WarnedAt(t, d + [x], vars, w)
    {
      WithinChild(d, x, w.dir);
    }
    forall w
      ensures WarnedPart(t, d, vars, done + {x}, w) <==>
        WarnedPart(t, d, vars, done, w) || WarnedAt(t, d + [x], vars, w)
    {
      WithinChild(d, x, w.dir);
    }
  }

  /** Part way through, the tree has the shape it started with. */
  /** A warning from the subtree of an entry not yet visited is not among
      the warnings already due, so descending never repeats a warning. */
  lemma WarnedBelowIsNew(t: Tree, d: Path, vars: seq<Binding>, done: set<Name>, x: Name, w: Warning)
    requires x !in done && WarnedAt(t, d + [x], vars, w)
    ensures !WarnedPart(t, d, vars, done, w)
  {
    WithinChild(d, x, w.dir);
  }

  lemma SubstPartShape(t: Tree, d: Path, vars: seq<Binding>, done: set<Name>)
    requires d in t
    ensures SameShape(t, SubstPart(t, d, vars, done))
    ensures WellFormed(t) ==> WellFormed(SubstPart(t, d, vars, done))
  {
    var u := SubstPart(t, d, vars, done);
    forall p | p in t
      ensures DirNames(t[p]) == DirNames(u[p])
    {
      PartialSubstShape(t[p], if p == d then done else t[p].Keys, vars);
    }
    if WellFormed(t) {
      SameShapeWellFormed(t, u);
    }
  }

  /** Once every entry of `d` has been visited, the walk of `d` is over. */
  lemma SubstPartEnd(t: Tree, d: Path, vars: seq<Binding>)
    requires WellFormed(t) && d in t
    ensures SubstPart(t, d, vars, t[d].Keys) == SubstitutedTree(t, d, vars)
    ensures forall w :: WarnedPart(t, d, vars, t[d].Keys, w) <==> WarnedAt(t, d, vars, w)
  {
    forall p | p in t && Below(d, p)
      ensures p[|d|] in t[d]
    {
      BelowThroughChild(t, d, p);
    }
  }
}
