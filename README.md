# Template set-up walks of a project generator, in Dafny

The generator copies a template directory into a new project directory. It then
runs two walks over the copy, both defined in `utils/helpers.js`:

* `renameTemplateFiles` drops the `.template` marker suffix from file names.
  Two names are special: `env.example.template` becomes `.env.example` and
  `gitignore.template` becomes `.gitignore`.
* `replacePlaceholders` replaces every `{{key}}` token in file contents with
  its value. It takes the keys in the mapping's order, writes a file back only
  when some token was found, and skips any file it cannot process. For such a
  file it prints a warning, unless the error code is `EISDIR`.

The model keeps the imperative shape of the source. A `FileSystem` class holds
the tree and the console log, and its methods stand for the filesystem calls
the walks make: list, stat, rename, read, write, warn. Both walks are methods
that loop over a listing snapshot and call themselves on subdirectories. Each
walk is proved against a specification on values:

* `Rename.RenamedTree` relates the tree before and after renaming.
* `Substitution.SubstitutedTree` computes the tree after substitution.
* `Substitution.WarnedAt` says which warnings are printed.

The per-file rules are separate functions and lemmas, proved once:

* the name rule `Names.NewName`;
* literal replace-all `Replace.ReplaceAll`;
* the per-key loop `Replace.SubstituteAll`;
* the per-file outcome `Substitution.SubstEntry`.

The tree is a map from directory paths to listings, and a listing maps names
to `Dir` or `File(content, stamp, read, write)`:

* `stamp` counts writes, so "not written" can be observed.
* `read` and `write` say whether the file can be read or written, and with
  which error code when it cannot.

Directories are never renamed, so the set of directory paths is the same
before and after both walks.

Module layout:

* `names.dfy` holds the file-name rule.
* `replace.dfy` holds token replacement and the per-key loop, plus a model of
  JavaScript's `$` replacement patterns.
* `filetree.dfy` holds the tree.
* `rename.dfy` and `substitution.dfy` hold the specifications of the two walks
  and the lemmas that carry a walk from one entry to the next.
* `helpers.dfy` holds the filesystem class and the walks themselves.
* `project.dfy` holds the two stages as the command-line entry point runs
  them, one after the other.

Two properties one might expect do not hold for the code, and the model
follows the code:

* Renaming is idempotent only under a condition. A file named
  `a.template.template` becomes `a.template`, and a second pass renames it
  again. `Rename.RenameTwiceNeedsDoubleMarker` and `Rename.RenameIdempotent`
  give the exact condition.
* Substitution does not remove every mapped token. A value can rebuild a token
  out of the text around it (`Replace.TokenMayReappear`).

## Model

| member | source | states |
|---|---|---|
| Names.NewName | utils/helpers.js:26-35 | the new name is shorter than the old one; for an ordinary name, adding the suffix back gives the old name; `env.example.template` becomes `.env.example` and `gitignore.template` becomes `.gitignore` |
| Names.NewNameEmpty | utils/helpers.js:26-27 | the new name is empty exactly when the file is named `.template` itself |
| Names.NewNameKeepsMarker | utils/helpers.js:26-27 | a renamed file still ends in `.template` exactly when its old name ended in the suffix twice |
| Replace.ReplaceAll | utils/helpers.js:61 | the literal global replace introduces no characters but those of the text and the value; `FirstMatchReplaced`, `PrefixKept` and `NoOccurrenceUnchanged` characterise it fully |
| Replace.ReplaceAllLength | utils/helpers.js:61 | the length of the result: each of the `Count` non-overlapping matches trades the token's length for the value's |
| Replace.IncludesGuardAgrees | utils/helpers.js:60-61 | the `includes` guard holds exactly when the global replacement finds at least one match |
| Replace.PrefixKept | utils/helpers.js:61 | text before the first match is kept as it is |
| Replace.NoOccurrenceUnchanged | utils/helpers.js:60-61 | a text without the token is returned unchanged |
| Replace.FirstMatchReplaced | utils/helpers.js:61 | the leftmost match is replaced by the value; the scan resumes after it and keeps the text before it |
| Replace.ReplaceBySelf | utils/helpers.js:61 | replacing a token by itself changes nothing |
| Replace.ReplaceChangesSameLength | utils/helpers.js:61 | a different value of the token's length, with the token present, always changes the text |
| Replace.ReplaceUnchangedIff | utils/helpers.js:60-61 | the text is unchanged exactly when the token is absent or the value is the token itself |
| Replace.FlagSetWithoutChange | utils/helpers.js:60-62 | a binding whose value is its own token leaves the text as it was but still sets the `modified` flag, so the file is written back unchanged |
| Replace.TokenShape | utils/helpers.js:59 | an occurrence of the token built from an identifier key is two opening braces, the key with no brace in it, and two closing braces |
| Replace.TokensDisjoint | utils/helpers.js:59 | the tokens of two different identifier keys never overlap in a text |
| Replace.TokenSelfDisjoint | utils/helpers.js:59 | two occurrences of one identifier key's token lie a whole token apart |
| Replace.CountStep | utils/helpers.js:61 | for an identifier token, `Count` counts every position where the token starts, so it is the number of occurrences |
| Replace.OtherTokensKept | utils/helpers.js:58-63 | replacing one key's token leaves at least as many occurrences of another key's token as the text held |
| Replace.OtherTokenSurvives | utils/helpers.js:58-63 | replacing one key's token keeps every occurrence of another key's token: it still occurs, and its count does not drop |
| Replace.TokenMayReappear | utils/helpers.js:58-63 | a value can rebuild the token it replaces: `{{{{k}}w}}` with a value `v` where `v + w == k` gives `{{k}}` back |
| Replace.SubstituteAll | utils/helpers.js:55-64 | a file whose flag stays unset keeps its text |
| Replace.SubstituteStep | utils/helpers.js:58-63 | one more binding replaces its token in the output of the earlier bindings, and sets the flag exactly when its token occurs in that output |
| Replace.ModifiedIffSomeToken | utils/helpers.js:56-63 | the flag is set exactly when the token of some binding occurs in the original text |
| Replace.UnmappedTokenSurvives | utils/helpers.js:58-63 | every occurrence of a token whose key is not in the mapping survives all bindings: it still occurs, and its count does not drop |
| Replace.Expand | utils/helpers.js:61 | the expansion of a replacement pattern with `$$`, `$&`, `` $` `` and `$'`; a pattern without `$` expands to itself |
| Replace.ScanPattern | utils/helpers.js:61 | the global replace as written, from a given index on; with a value free of `$` it equals literal replace-all of the rest of the text |
| Replace.ReplacePattern | utils/helpers.js:61 | `content.replace(new RegExp(placeholder, 'g'), value)`; with a value free of `$` it is literal replace-all |
| Replace.PatternReplaceMangles | utils/helpers.js:61 | the project name `a$$b` is substituted as `a$b` by the code, while literal replacement keeps `a$$b` |
| FileTree.DirsBelowShrinks | utils/helpers.js:24-25 | a recursive call on a subdirectory has strictly fewer directories below it, so both walks terminate |
| Rename.VisitStep | utils/helpers.js:24-36 | a template entry not yet visited is still under its own name with its own entry, and moving it to its new name keeps the progress invariant |
| Rename.VisitAll | utils/helpers.js:20-38 | once every entry of a listing is visited, the listing is a renaming of the original |
| Rename.VisitedDirs | utils/helpers.js:24-25 | part way through the loop, the subdirectory names of a listing are those it started with |
| Rename.RenamingUnique | utils/helpers.js:17-39 | a listing has only one renaming, so the result does not depend on the order `readdirSync` lists the names in |
| Rename.RenamingEntries | utils/helpers.js:24-27 | after renaming, no template name is left; every directory and non-template file keeps its name and its entry |
| Rename.RenamingDirs | utils/helpers.js:24-25 | renaming leaves the set of subdirectory names as it is |
| Rename.RenamedTreeShape | utils/helpers.js:17-39 | a renamed tree has the same directories and subdirectory names, and stays well formed |
| Rename.RenameTwiceNeedsDoubleMarker | utils/helpers.js:26-27 | a renamed template file is a template file again exactly when its old name ended in the suffix twice |
| Rename.RenameIdempotent | utils/helpers.js:17-39 | when no name ends in the suffix twice, no template file is left and a second pass changes nothing |
| Rename.ProgressAtFile | utils/helpers.js:21-22 | the entry about to be visited is still in the listing under its own name, with its original entry |
| Rename.ProgressRename | utils/helpers.js:26-36 | moving a template file to `NewName` carries the walk's invariant over that entry |
| Rename.ProgressSkip | utils/helpers.js:26 | leaving a non-template file alone carries the invariant over that entry |
| Rename.ProgressEnter | utils/helpers.js:24-25 | a subdirectory about to be entered is still listed, has its own listing, and may be renamed safely |
| Rename.ProgressDescend | utils/helpers.js:24-25 | renaming a subdirectory's subtree carries the invariant over that entry |
| Rename.ProgressEnd | utils/helpers.js:20-38 | once every entry is visited, the tree is a renamed tree of the original |
| Substitution.SubstEntry | utils/helpers.js:54-75 | visiting an entry keeps it a file or a directory, and keeps its access rights |
| Substitution.Failure | utils/helpers.js:54-75 | an error is caught exactly when the file cannot be read, or when something was replaced and it cannot be written; the code is that of the failed read or write |
| Substitution.SubstEntryWritesOnChange | utils/helpers.js:56-68 | a file changes exactly when it can be read and written and some mapped token occurs in it; it then holds the substituted text and has been written once |
| Substitution.UnreadableSkipped | utils/helpers.js:69-75 | an unreadable file is left untouched, its error is the read error, and it warns exactly when the code is not `EISDIR` |
| Substitution.UnwritableSkipped | utils/helpers.js:66-74 | a readable file with a replaced token that cannot be written is left as it was, its error is the write error, and it warns exactly when the code is not `EISDIR` |
| Substitution.NoTokenNoEffect | utils/helpers.js:60-68 | a file containing no mapped token is not written |
| Substitution.PartialSubstShape | utils/helpers.js:47-76 | substitution keeps the names and subdirectories of a listing |
| Substitution.SubstitutedTreeShape | utils/helpers.js:44-78 | substitution keeps the tree's shape and well-formedness |
| Substitution.SubstituteNothing | utils/helpers.js:58-64 | an empty mapping leaves the tree as it is |
| Substitution.SubstPartStart | utils/helpers.js:45 | before the loop, the tree is the original and no warning is due |
| Substitution.SubstPartFile | utils/helpers.js:53-76 | visiting a file changes that one entry into its substituted entry |
| Substitution.WarnedPartFile | utils/helpers.js:69-74 | visiting a file adds exactly its own warning, when it warns |
| Substitution.SubstPartDescend | utils/helpers.js:51-52 | substituting a subdirectory's subtree advances the loop over that entry |
| Substitution.WarnedPartDescend | utils/helpers.js:51-52 | descending into a subdirectory adds exactly the warnings of its subtree |
| Substitution.WarnedBelowIsNew | utils/helpers.js:51-52 | a warning from the subtree of an entry not yet visited was not due before, so no warning is printed twice |
| Substitution.SubstPartShape | utils/helpers.js:47-76 | part way through, the tree keeps its shape and well-formedness |
| Substitution.SubstPartEnd | utils/helpers.js:47-77 | once every entry is visited, the tree and the warnings are those of the whole walk |
| Helpers.FileSystem.ReadDir | utils/helpers.js:18 | the snapshot lists every name of the directory once, in some order |
| Helpers.FileSystem.IsDirectory | utils/helpers.js:22-24 | tells a subdirectory from a file |
| Helpers.FileSystem.RenameEntry | utils/helpers.js:36 | moves one entry to a new name in the same directory and changes nothing else |
| Helpers.FileSystem.ReadFile | utils/helpers.js:55 | returns the content of a readable file, or the read error's code |
| Helpers.FileSystem.WriteFile | utils/helpers.js:67 | a writable file gets the new text and one more write; otherwise nothing changes and the error is returned |
| Helpers.FileSystem.Warn | utils/helpers.js:73 | appends one warning naming the file and changes nothing else |
| Helpers.RenameTemplateFiles | utils/helpers.js:17-39 | the tree becomes a renamed tree of the original at and below the directory; everything else and the console are unchanged |
| Helpers.RenameItem | utils/helpers.js:20-37 | one loop iteration: the invariant grows by the visited entry |
| Helpers.SubstituteText | utils/helpers.js:55-64 | the loop computes exactly the text and the flag of `SubstituteAll` |
| Helpers.ReplaceInFile | utils/helpers.js:54-75 | the file becomes its substituted entry, and a warning is printed exactly when the entry warns |
| Helpers.ReplacePlaceholders | utils/helpers.js:44-78 | the tree becomes the substituted tree; after what it held before, the console gets exactly the warnings of the walk, each once |
| Helpers.ReplaceItem | utils/helpers.js:47-76 | one loop iteration: tree and warnings advance by the visited entry, and no warning is repeated |
| Project.StagesPerEntry | index.js:93-104 | after both stages, each copied entry sits under its renamed name in its own directory and holds its substituted entry |
| Project.SetUpProject | index.js:91-110 | renaming runs first, then substitution of `projectName` over the renamed tree; each warning of the walk is printed once |

## Left out

* Copying the template is not modelled: `copyDirectory` only forwards to the
  `fs-extra` library. The two stages start from the tree as copied.
* The rest of `index.js` is not modelled: prompts, name validation, the
  existence check, `mkdirSync`, spinners, console output, `process.exit` and
  the package-manager shell-out.
* Console output of the walks is a list of `Warning(directory, name)` values.
  The message text is not modelled.
* Helpers.RenameTemplateFiles: requires `RenameSafeWithin`. No file may be
  named `.template` alone, and within a directory the new names must differ
  from each other and from every other entry. On a collision, `renameSync`
  would either overwrite a file or throw, for example when the target is a
  directory, and the result would depend on the listing order. The model does
  not cover those cases.
* Filesystem failures of `statSync`, `readdirSync` and `renameSync` are not
  modelled. In the source they throw out of the walk.
* Listing order is not fixed: `ReadDir` may return the names in any order.
  The renamer's result does not depend on it (`Rename.RenamingUnique`). The
  order of printed warnings is not stated, only which warnings are printed,
  each once.
* Symbolic links, UTF-8 decoding and binary detection are not modelled. A
  file that cannot be read as text is a file whose `read` access is
  `Denied(code)`.
* A key is turned into a regular expression without escaping, so a key with
  regular-expression metacharacters would not match literally. The model
  replaces literally, and its lemmas about tokens assume identifier keys,
  which covers `projectName`.
* A replacement value is subject to JavaScript's `$` patterns. Only `$$`,
  `$&`, `` $` `` and `$'` are modelled (`Replace.Expand`). There are no
  capture groups.
* Helpers.ReplacePlaceholders: uses literal replacement, the corrected
  behaviour listed under Findings. A value containing `$` is therefore
  substituted as written, not expanded.
* Replace.SubstituteAll: uses literal replacement, for the same reason.
* Substitution.SubstEntry: uses literal replacement, for the same reason.
* Helpers.SubstituteText: uses literal replacement, for the same reason.
* Helpers.ReplaceInFile: uses literal replacement, for the same reason.
* Project.SetUpProject: uses literal replacement, for the same reason.

## Findings

| source | as written | input that shows it | evidently intended | confidence | as-written member | corrected member |
|---|---|---|---|---|---|---|
| utils/helpers.js:61 | the value is passed as the replacement string of `String.prototype.replace`, so `$$`, `$&` and the like in it are expanded | project name `a$$b` substituted for `{{projectName}}` yields `a$b` | the value is inserted literally | high (not executed) | Replace.PatternReplaceMangles | Replace.FirstMatchReplaced |
