/** The file-name rule of the template renamer: a name ending in the marker
    suffix loses it, except for two names that become dot-files. */
module Names {

  /** The marker suffix of a file that must be renamed after copying. */
  const Suffix: string := ".template"

  /** The two closed special cases, with the names they become. */
  const EnvExample: string := "env.example.template"
  const EnvExampleTarget: string := ".env.example"
  const GitIgnore: string := "gitignore.template"
  const GitIgnoreTarget: string := ".gitignore"

  predicate EndsWith(s: string, suffix: string) {
    |suffix| <= |s| && s[|s| - |suffix|..] == suffix
  }

  /** The new name of a file whose name carries the marker suffix: the
      suffix stripped, unless the name is one of the two special cases. */
  function NewName(name: string): (r: string)
    requires EndsWith(name, Suffix)
    ensures |r| < |name|
    ensures name != EnvExample && name != GitIgnore ==> r + Suffix == name
    ensures name == EnvExample ==> r == EnvExampleTarget
    ensures name == GitIgnore ==> r == GitIgnoreTarget
  {
    var stripped := name[..|name| - |Suffix|];
    if name == EnvExample then EnvExampleTarget
    else if name == GitIgnore then GitIgnoreTarget
    else stripped
  }

  /** A new name is empty exactly when the file is named by the bare suffix. */
  lemma NewNameEmpty(name: string)
    requires EndsWith(name, Suffix)
    ensures NewName(name) == [] <==> name == Suffix
  {
    if name != EnvExample && name != GitIgnore {
      assert NewName(name) + Suffix == name;
    }
  }

  /** A renamed file still carries the marker exactly when its original name
      carried it twice; the special-case targets never carry it. */
  lemma NewNameKeepsMarker(name: string)
    requires EndsWith(name, Suffix)
    ensures EndsWith(NewName(name), Suffix) <==> EndsWith(name, Suffix + Suffix)
  {
    var ss := Suffix + Suffix;
    if name == EnvExample {
      assert EnvExampleTarget[|EnvExampleTarget| - |Suffix|..] != Suffix;
      assert name[|name| - |ss|..][0] != ss[0];
    } else if name == GitIgnore {
      assert GitIgnoreTarget[|GitIgnoreTarget| - |Suffix|..] != Suffix;
      assert name[|name| - |ss|..][0] != ss[0];
    } else {
      var r := NewName(name);
      assert r + Suffix == name;
      if EndsWith(r, Suffix) {
        assert name[|name| - |ss|..] == r[|r| - |Suffix|..] + Suffix;
      }
      if EndsWith(name, ss) {
        assert r[|r| - |Suffix|..] == name[|name| - |ss|..][..|Suffix|];
      }
    }
  }
}
