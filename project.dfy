/** The two set-up stages the generator runs on a freshly copied project:
    template files are renamed first, then the project's name is substituted
    into every file. */
module Project {
  import opened Names
  import opened Replace
  import opened FileTree
  import opened Rename
  import opened Substitution
  import opened Helpers

  /** The only placeholder the generator fills in. */
  const ProjectNameKey := "projectName"

  /** After both stages, the entry `n` of a directory `p` at or below the
      project root sits under its renamed name in the same directory and
      holds what the substitution makes of its original entry: a template
      file is renamed and then substituted, any other entry substituted in
      place, a directory left as a directory. */
  lemma StagesPerEntry(t: Tree, d: Path, vars: seq<Binding>, u: Tree, p: Path, n: Name)
    requires RenamedTree(t, d, u) && p in t && Within(d, p) && n in t[p]
    ensures p in SubstitutedTree(u, d, vars)
    ensures Target(t[p], n) in SubstitutedTree(u, d, vars)[p]
    ensures SubstitutedTree(u, d, vars)[p][Target(t[p], n)] == SubstEntry(t[p][n], vars)
  {
    assert IsRenaming(t[p], u[p]);
    var q := Target(t[p], n);
    assert q in u[p] && u[p][q] == t[p][n];
    assert SubstitutedTree(u, d, vars)[p] == SubstListing(u[p], vars);
  }

  /** The stages after the copy: the template files below `dir` are renamed,
      then every `{{projectName}}` in their contents becomes `name`. The
      ghost result is the tree between the two stages. */
  method SetUpProject(fs: FileSystem, dir: Path, name: string) returns (ghost renamed: Tree)
    requires fs.Valid() && dir in fs.dirs && RenameSafeWithin(fs.dirs, dir)
    modifies fs
    ensures fs.Valid()
    ensures RenamedTree(old(fs.dirs), dir, renamed)
    ensures fs.dirs == SubstitutedTree(renamed, dir, [Binding(ProjectNameKey, name)])
    ensures |old(fs.warnings)| <= |fs.warnings| && fs.warnings[..|old(fs.warnings)|] == old(fs.warnings)
    ensures forall w :: w in fs.warnings[|old(fs.warnings)|..] <==>
      WarnedAt(renamed, dir, [Binding(ProjectNameKey, name)], w)
    ensures NoRepeats(fs.warnings[|old(fs.warnings)|..])
  {
    RenameTemplateFiles(fs, dir);
    renamed := fs.dirs;
    ReplacePlaceholders(fs, dir, [Binding(ProjectNameKey, name)]);
  }
}
