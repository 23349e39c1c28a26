/** The two filesystem walks of the project generator: renaming the template
    files of a freshly copied project, and substituting the project's
    placeholders in its files. Both walk a directory listing taken once at
    the start, descend into subdirectories, and change the filesystem in
    place. */
module Helpers {
  import opened Names
  import opened Replace
  import opened FileTree
  import opened Rename
  import opened Substitution

  /** The outcome of reading a file as text. */
  datatype ReadResult = Text(content: string) | ReadError(code: string)

  /** The part of the filesystem the walks touch, and the console warnings
      they print. */
  class FileSystem {
    var dirs: Tree
    var warnings: seq<Warning>

    ghost predicate Valid()
      reads this
    {
      WellFormed(dirs)
    }

    constructor (t: Tree)
      requires WellFormed(t)
      ensures dirs == t && warnings == [] && Valid()
    {
      dirs := t;
      warnings := [];
    }

    /** The names in directory `d`, each once, in an order the model does
        not fix. */
    method ReadDir(d: Path) returns (items: seq<Name>)
      requires d in dirs
      ensures forall n :: n in items <==> n in dirs[d]
      ensures forall i, j | 0 <= i < j < |items| :: items[i] != items[j]
    {
      var rest := dirs[d].Keys;
      items := [];
      while rest != {}
        invariant rest <= dirs[d].Keys
        invariant forall n :: n in items <==> n in dirs[d] && n !in rest
        invariant forall i, j | 0 <= i < j < |items| :: items[i] != items[j]
        decreases rest
      {
        var n :| n in rest;
        items := items + [n];
        rest := rest - {n};
      }
    }

    /** Whether entry `n` of directory `d` is a directory. */
    method IsDirectory(d: Path, n: Name) returns (b: bool)
      requires d in dirs && n in dirs[d]
      ensures b == dirs[d][n].Dir?
    {
      b := dirs[d][n].Dir?;
    }

    /** Moves entry `from` of directory `d` to the name `to`. */
    method RenameEntry(d: Path, from: Name, to: Name)
      requires d in dirs && from in dirs[d]
      modifies this
      ensures dirs == old(dirs)[d := Moved(old(dirs)[d], from, to)]
      ensures warnings == old(warnings)
    {
      dirs := dirs[d := Moved(dirs[d], from, to)];
    }

    /** Reads file `n` of directory `d` as text. */
    method ReadFile(d: Path, n: Name) returns (r: ReadResult)
      requires d in dirs && n in dirs[d] && dirs[d][n].File?
      ensures dirs[d][n].read.Granted? ==> r == Text(dirs[d][n].content)
      ensures dirs[d][n].read.Denied? ==> r == ReadError(dirs[d][n].read.code)
    {
      var e := dirs[d][n];
      if e.read.Denied? {
        r := ReadError(e.read.code);
      } else {
        r := Text(e.content);
      }
    }

    /** Writes `text` to file `n` of directory `d`, when the file can be
        written; returns whether it could. */
    method WriteFile(d: Path, n: Name, text: string) returns (r: Access)
      requires d in dirs && n in dirs[d] && dirs[d][n].File?
      modifies this
      ensures r == old(dirs)[d][n].write
      ensures r.Granted? ==>
        var e := old(dirs)[d][n];
        dirs == old(dirs)[d := old(dirs)[d][n := e.(content := text, stamp := e.stamp + 1)]]
      ensures r.Denied? ==> dirs == old(dirs)
      ensures warnings == old(warnings)
    {
      var e := dirs[d][n];
      r := e.write;
      if r.Granted? {
        dirs := dirs[d := dirs[d][n := e.(content := text, stamp := e.stamp + 1)]];
      }
    }

    /** Prints a warning about file `n` of directory `d`. */
    method Warn(d: Path, n: Name)
      modifies this
      ensures warnings == old(warnings) + [Warning(d, n)]
      ensures dirs == old(dirs)
    {
      warnings := warnings + [Warning(d, n)];
    }
  }

  /** Renames every template file at or below `dir`: a file whose name ends
      in the marker suffix loses it, or becomes one of the two dot-files.
      Directories, other files and all contents stay as they are, and
      nothing is printed. */
  method RenameTemplateFiles(fs: FileSystem, dir: Path)
    requires fs.Valid() && dir in fs.dirs && RenameSafeWithin(fs.dirs, dir)
    modifies fs
    ensures fs.Valid()
    ensures RenamedTree(old(fs.dirs), dir, fs.dirs)
    ensures fs.warnings == old(fs.warnings)
    decreases DirsBelow(fs.dirs, dir), 1
  {
    var items := fs.ReadDir(dir);
    ghost var t := fs.dirs;
    ghost var done: set<Name> := {};
    ghost var src := Identity(t[dir]);
    ProgressStart(t, dir);
    var i := 0;
    while i < |items|
      invariant 0 <= i <= |items|
      invariant forall n :: n in done <==> n in items[..i]
      invariant RenameProgress(t, dir, done, src, fs.dirs)
      invariant fs.Valid()
      invariant fs.warnings == old(fs.warnings)
    {
      NextUnvisited(items, i, done);
      DirsBelowSameKeys(t, fs.dirs, dir);
      src := RenameItem(fs, dir, items[i], t, done, src);
      done := done + {items[i]};
      i := i + 1;
    }
    AllVisited(items, done, t[dir].Keys);
    ProgressEnd(t, dir, src, fs.dirs);
  }

  /** One entry of the listing of `dir`, visited by the renamer: a
      subdirectory is walked, a template file renamed, any other file left
      alone. */
  method RenameItem(fs: FileSystem, dir: Path, item: Name, ghost t: Tree, ghost done: set<Name>,
                    ghost src: map<Name, Name>) returns (ghost src': map<Name, Name>)
    requires WellFormed(t) && RenameSafeWithin(t, dir) && RenameProgress(t, dir, done, src, fs.dirs)
    requires fs.Valid() && item in t[dir] && item !in done
    modifies fs
    ensures fs.Valid() && RenameProgress(t, dir, done + {item}, src', fs.dirs)
    ensures fs.warnings == old(fs.warnings)
    decreases DirsBelow(fs.dirs, dir), 0
  {
    assert RenameSafe(t[dir]);
    ProgressAtFile(t, dir, done, src, fs.dirs, item);
    src' := src;
    var isDir := fs.IsDirectory(dir, item);
    if isDir {
      ProgressEnter(t, dir, done, src, fs.dirs, item);
      DirsBelowShrinks(fs.dirs, dir, item);
      ghost var u := fs.dirs;
      RenameTemplateFiles(fs, dir + [item]);
      ProgressDescend(t, dir, done, src, u, item, fs.dirs);
    } else if EndsWith(item, Suffix) {
      ProgressRename(t, dir, done, src, fs.dirs, item);
      src' := Moved(src, item, NewName(item));
      fs.RenameEntry(dir, item, NewName(item));
    } else {
      ProgressSkip(t, dir, done, src, fs.dirs, item);
    }
    ProgressShape(t, dir, done + {item}, src', fs.dirs);
  }

  /** The per-key loop over the text of one file: every binding in order
      whose token occurs in the text so far has all its occurrences
      replaced, and the flag records whether any did. */
  method SubstituteText(text: string, vars: seq<Binding>) returns (content: string, modified: bool)
    ensures (content, modified) == SubstituteAll(text, vars)
  {
    content, modified := text, false;
    var i := 0;
    while i < |vars|
      invariant 0 <= i <= |vars|
      invariant (content, modified) == SubstituteAll(text, vars[..i])
    {
      var placeholder := Token(vars[i].key);
      SubstituteStep(text, vars[..i], vars[i]);
      assert vars[..i + 1] == vars[..i] + [vars[i]];
      if Occurs(content, placeholder) {
        content := ReplaceAll(content, placeholder, vars[i].value);
        modified := true;
      }
      i := i + 1;
    }
    assert vars[..|vars|] == vars;
  }

  /** Visits one file: reads it, substitutes, writes it back if anything was
      replaced, and prints a warning for a failure unless its code says the
      path is a directory. */
  method ReplaceInFile(fs: FileSystem, dir: Path, name: Name, vars: seq<Binding>)
    requires dir in fs.dirs && name in fs.dirs[dir] && fs.dirs[dir][name].File?
    modifies fs
    ensures fs.dirs == old(fs.dirs)[dir := old(fs.dirs)[dir][name := SubstEntry(old(fs.dirs)[dir][name], vars)]]
    ensures fs.warnings == old(fs.warnings) + if Warns(old(fs.dirs)[dir][name], vars) then [Warning(dir, name)] else []
  {
    ghost var e := fs.dirs[dir][name];
    var failure: Option<string> := None;
    var r := fs.ReadFile(dir, name);
    match r {
      case ReadError(code) =>
        failure := Some(code);
      case Text(content) =>
        var text, modified := SubstituteText(content, vars);
        if modified {
          var written := fs.WriteFile(dir, name, text);
          if written.Denied? {
            failure := Some(written.code);
          }
        }
    }
    assert failure == Failure(e, vars);
    if failure.Some? && failure.value != IsDirectoryCode {
      fs.Warn(dir, name);
    }
    assert old(fs.dirs)[dir][name := e] == old(fs.dirs)[dir];
  }

  /** Substitutes the placeholders of `vars` in every file at or below
      `dir`, writing back only files in which something was replaced, and
      prints one warning per file that could not be processed. */
  method ReplacePlaceholders(fs: FileSystem, dir: Path, vars: seq<Binding>)
    requires fs.Valid() && dir in fs.dirs
    modifies fs
    ensures fs.Valid()
    ensures fs.dirs == SubstitutedTree(old(fs.dirs), dir, vars)
    ensures |old(fs.warnings)| <= |fs.warnings| && fs.warnings[..|old(fs.warnings)|] == old(fs.warnings)
    ensures forall w :: w in fs.warnings[|old(fs.warnings)|..] <==> WarnedAt(old(fs.dirs), dir, vars, w)
    ensures NoRepeats(fs.warnings[|old(fs.warnings)|..])
    decreases DirsBelow(fs.dirs, dir), 1
  {
    var items := fs.ReadDir(dir);
    ghost var t := fs.dirs;
    ghost var w0 := fs.warnings;
    ghost var done: set<Name> := {};
    SubstPartStart(t, dir, vars);
    var i := 0;
    while i < |items|
      invariant 0 <= i <= |items|
      invariant forall n :: n in done <==> n in items[..i]
      invariant fs.dirs == SubstPart(t, dir, vars, done)
      invariant fs.Valid()
      invariant |w0| <= |fs.warnings| && fs.warnings[..|w0|] == w0
      invariant forall w :: w in fs.warnings[|w0|..] <==> WarnedPart(t, dir, vars, done, w)
      invariant NoRepeats(fs.warnings[|w0|..])
    {
      NextUnvisited(items, i, done);
      SubstPartShape(t, dir, vars, done);
      DirsBelowSameKeys(t, fs.dirs, dir);
      ReplaceItem(fs, dir, items[i], vars, t, done, w0);
      done := done + {items[i]};
      i := i + 1;
    }
    AllVisited(items, done, t[dir].Keys);
    SubstPartEnd(t, dir, vars);
  }

  /** One entry of the listing of `dir`, visited by the substitution walk:
      a subdirectory is walked, a file processed. */
  method ReplaceItem(fs: FileSystem, dir: Path, item: Name, vars: seq<Binding>,
                     ghost t: Tree, ghost done: set<Name>, ghost w0: seq<Warning>)
    requires WellFormed(t) && dir in t && fs.dirs == SubstPart(t, dir, vars, done)
    requires fs.Valid() && item in t[dir] && item !in done
    requires |w0| <= |fs.warnings| && fs.warnings[..|w0|] == w0
    requires forall w :: w in fs.warnings[|w0|..] <==> WarnedPart(t, dir, vars, done, w)
    requires NoRepeats(fs.warnings[|w0|..])
    modifies fs
    ensures fs.Valid() && fs.dirs == SubstPart(t, dir, vars, done + {item})
    ensures |w0| <= |fs.warnings| && fs.warnings[..|w0|] == w0
    ensures forall w :: w in fs.warnings[|w0|..] <==> WarnedPart(t, dir, vars, done + {item}, w)
    ensures NoRepeats(fs.warnings[|w0|..])
    decreases DirsBelow(fs.dirs, dir), 0
  {
    ghost var before := fs.warnings;
    var isDir := fs.IsDirectory(dir, item);
    if isDir {
      SubstPartDescend(t, dir, vars, done, item);
      WarnedPartDescend(t, dir, vars, done, item);
      DirsBelowShrinks(fs.dirs, dir, item);
      ReplacePlaceholders(fs, dir + [item], vars);
      forall w | w in fs.warnings[|before|..]
        ensures w !in before[|w0|..]
      {
        WarnedBelowIsNew(t, dir, vars, done, item, w);
      }
    } else {
      SubstPartFile(t, dir, vars, done, item);
      WarnedPartFile(t, dir, vars, done, item);
      ReplaceInFile(fs, dir, item, vars);
      SubstPartShape(t, dir, vars, done + {item});
    }
    AppendedWarnings(w0, before, fs.warnings);
    AppendedNoRepeats(w0, before, fs.warnings);
  }

  /** The next name in a listing without repetitions has not been visited
      yet, and visiting it extends the visited prefix by one. */
  lemma NextUnvisited(items: seq<Name>, i: nat, done: set<Name>)
    requires i < |items| && forall i, j | 0 <= i < j < |items| :: items[i] != items[j]
    requires forall n :: n in done <==> n in items[..i]
    ensures items[i] !in done
    ensures forall n :: n in done + {items[i]} <==> n in items[..i + 1]
  {
    assert items[..i + 1] == items[..i] + [items[i]];
  }

  /** Once the whole listing is visited, the visited names are its names. */
  lemma AllVisited(items: seq<Name>, done: set<Name>, keys: set<Name>)
    requires forall n :: n in items <==> n in keys
    requires forall n :: n in done <==> n in items[..|items|]
    ensures done == keys
  {
    assert items[..|items|] == items;
  }

  /** Appending warnings that are new and distinct to a stretch without
      repeats keeps it without repeats. */
  lemma AppendedNoRepeats(w0: seq<Warning>, before: seq<Warning>, after: seq<Warning>)
    requires |w0| <= |before| <= |after| && after[..|before|] == before
    requires NoRepeats(before[|w0|..]) && NoRepeats(after[|before|..])
    requires forall w | w in after[|before|..] :: w !in before[|w0|..]
    ensures NoRepeats(after[|w0|..])
  {
    var a, b := before[|w0|..], after[|before|..];
    assert after[|w0|..] == a + b;
    forall i, j | 0 <= i < j < |a + b|
      ensures (a + b)[i] != (a + b)[j]
    {
      if i < |a| && |a| <= j {
        assert (a + b)[j] == b[j - |a|] && b[j - |a|] in b;
      }
    }
  }

  /** A log that only grows keeps its first entries, and what was added
      since an earlier point is what was added before it and after it. */
  lemma AppendedWarnings(w0: seq<Warning>, before: seq<Warning>, after: seq<Warning>)
    requires |w0| <= |before| && before[..|w0|] == w0
    requires |before| <= |after| && after[..|before|] == before
    ensures |w0| <= |after| && after[..|w0|] == w0
    ensures forall w :: w in after[|w0|..] <==> w in before[|w0|..] || w in after[|before|..]
  {
    assert after[..|w0|] == after[..|before|][..|w0|];
    assert after[|w0|..] == before[|w0|..] + after[|before|..];
  }
}
