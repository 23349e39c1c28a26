/** Literal placeholder substitution in one text: the `{{key}}` token, global
    left-to-right replacement without overlaps, and the per-key loop that
    applies an ordered variable mapping. */
module Replace {

  /** The placeholder token of a key. */
  function Token(key: string): string {
    "{{" + key + "}}"
  }

  predicate IsIdentifierChar(c: char) {
    'a' <= c <= 'z' || 'A' <= c <= 'Z' || '0' <= c <= '9' || c == '_'
  }

  /** A key such as `projectName`: letters, digits and underscores, not
      starting with a digit. */
  predicate IsIdentifier(key: string) {
    |key| > 0 && !('0' <= key[0] <= '9') &&
    forall i | 0 <= i < |key| :: IsIdentifierChar(key[i])
  }

  /** `t` occurs in `s` starting at index `i`. */
  predicate OccursAt(s: string, t: string, i: int) {
    0 <= i && i + |t| <= |s| && s[i..i + |t|] == t
  }

  /** `s.includes(t)` */
  predicate Occurs(s: string, t: string) {
    exists i | 0 <= i <= |s| - |t| :: OccursAt(s, t, i)
  }

  /** Every occurrence of `t` in `s` replaced by `v`, found scanning left to
      right, the scan resuming after each match (so matches never overlap). */
  function ReplaceAll(s: string, t: string, v: string): (r: string)
    requires |t| > 0
    ensures forall c | c in r :: c in s || c in v
    decreases |s|
  {
    if |s| < |t| then s
    else if s[..|t|] == t then
      assert forall c | c in s[|t|..] :: c in s;
      v + ReplaceAll(s[|t|..], t, v)
    else
      assert forall c | c in s[1..] :: c in s;
      [s[0]] + ReplaceAll(s[1..], t, v)
  }

  /** The number of matches the scan of ReplaceAll replaces. */
  function Count(s: string, t: string): nat
    requires |t| > 0
    decreases |s|
  {
    if |s| < |t| then 0
    else if s[..|t|] == t then 1 + Count(s[|t|..], t)
    else Count(s[1..], t)
  }

  lemma {:induction false} ShiftOccurrence(s: string, t: string, n: nat, i: int)
    requires n <= |s| && 0 <= i
    ensures OccursAt(s[n..], t, i) <==> OccursAt(s, t, i + n)
  {
    if 0 <= i && i + |t| <= |s| - n {
      assert s[n..][i..i + |t|] == s[i + n..i + n + |t|];
    }
  }

  lemma ScanSkips(s: string, t: string, v: string)
    requires 0 < |t| <= |s| && s[..|t|] != t
    ensures ReplaceAll(s, t, v) == [s[0]] + ReplaceAll(s[1..], t, v)
  {
  }

  lemma ScanTakes(s: string, t: string, v: string)
    requires 0 < |t| <= |s| && s[..|t|] == t
    ensures ReplaceAll(s, t, v) == v + ReplaceAll(s[|t|..], t, v)
  {
  }

  /** Each match replaces |t| characters by |v| characters. */
  lemma {:induction false} ReplaceAllLength(s: string, t: string, v: string)
    requires |t| > 0
    ensures |ReplaceAll(s, t, v)| + Count(s, t) * |t| == |s| + Count(s, t) * |v|
    decreases |s|
  {
    if |s| < |t| {
    } else if s[..|t|] == t {
      ReplaceAllLength(s[|t|..], t, v);
      var c := Count(s[|t|..], t);
      assert (c + 1) * |t| == c * |t| + |t|;
      assert (c + 1) * |v| == c * |v| + |v|;
    } else {
      ReplaceAllLength(s[1..], t, v);
    }
  }

  /** The `includes` guard and the global replace agree: the scan replaces
      something exactly when the token occurs. */
  lemma {:induction false} IncludesGuardAgrees(s: string, t: string)
    requires |t| > 0
    ensures Count(s, t) > 0 <==> Occurs(s, t)
    decreases |s|
  {
    if |s| < |t| {
    } else if s[..|t|] == t {
      assert OccursAt(s, t, 0);
    } else {
      IncludesGuardAgrees(s[1..], t);
      if Count(s, t) > 0 {
        var i :| 0 <= i && OccursAt(s[1..], t, i);
        ShiftOccurrence(s, t, 1, i);
      }
      if Occurs(s, t) {
        var i :| 0 <= i && OccursAt(s, t, i);
        assert i != 0;
        ShiftOccurrence(s, t, 1, i - 1);
      }
    }
  }

  /** Text before the first match is kept as it is. */
  lemma {:induction false} PrefixKept(s: string, t: string, v: string, n: nat)
    requires |t| > 0 && n <= |s|
    requires forall j | 0 <= j < n :: !OccursAt(s, t, j)
    ensures ReplaceAll(s, t, v) == s[..n] + ReplaceAll(s[n..], t, v)
    decreases n
  {
    if n == 0 {
      assert s[..0] + s[0..] == s;
    } else if |s| < |t| {
      assert s[..n] + s[n..] == s;
    } else {
      assert !OccursAt(s, t, 0);
      forall j | 0 <= j < n - 1
        ensures !OccursAt(s[1..], t, j)
      {
        ShiftOccurrence(s, t, 1, j);
      }
      PrefixKept(s[1..], t, v, n - 1);
      assert s[1..][n - 1..] == s[n..];
      assert [s[0]] + s[1..][..n - 1] == s[..n];
    }
  }

  /** A text without the token is returned unchanged. */
  lemma NoOccurrenceUnchanged(s: string, t: string, v: string)
    requires |t| > 0 && !Occurs(s, t)
    ensures ReplaceAll(s, t, v) == s
  {
    PrefixKept(s, t, v, |s|);
    assert s[..|s|] == s;
  }

  /** The leftmost match is replaced by the value; what precedes it is kept
      and the scan resumes right after it. Together with
      NoOccurrenceUnchanged this determines ReplaceAll completely. */
  lemma FirstMatchReplaced(s: string, t: string, v: string, i: nat)
    requires |t| > 0 && OccursAt(s, t, i)
    requires forall j | 0 <= j < i :: !OccursAt(s, t, j)
    ensures ReplaceAll(s, t, v) == s[..i] + v + ReplaceAll(s[i + |t|..], t, v)
  {
    PrefixKept(s, t, v, i);
    var u := s[i..];
    assert u[..|t|] == s[i..i + |t|] == t;
    assert ReplaceAll(u, t, v) == v + ReplaceAll(u[|t|..], t, v);
    assert u[|t|..] == s[i + |t|..];
  }

  /** Replacing a token by itself changes nothing. */
  lemma {:induction false} ReplaceBySelf(s: string, t: string)
    requires |t| > 0
    ensures ReplaceAll(s, t, t) == s
    decreases |s|
  {
    if |s| < |t| {
    } else if s[..|t|] == t {
      ReplaceBySelf(s[|t|..], t);
      assert s[..|t|] + s[|t|..] == s;
    } else {
      ReplaceBySelf(s[1..], t);
      assert [s[0]] + s[1..] == s;
    }
  }

  lemma {:induction false} ReplaceChangesSameLength(s: string, t: string, v: string)
    requires |t| > 0 && |v| == |t| && v != t && Occurs(s, t)
    ensures ReplaceAll(s, t, v) != s
    decreases |s|
  {
    var i :| 0 <= i && OccursAt(s, t, i);
    if s[..|t|] == t {
      var r := ReplaceAll(s, t, v);
      assert r[..|t|] == v;
      assert s[..|t|] == t;
    } else {
      assert i != 0;
      ShiftOccurrence(s, t, 1, i - 1);
      ReplaceChangesSameLength(s[1..], t, v);
      var r := ReplaceAll(s, t, v);
      assert r[1..] == ReplaceAll(s[1..], t, v);
    }
  }

  /** The text comes back unchanged exactly when the token does not occur or
      the value is the token itself. */
  lemma ReplaceUnchangedIff(s: string, t: string, v: string)
    requires |t| > 0
    ensures ReplaceAll(s, t, v) == s <==> !Occurs(s, t) || v == t
  {
    if !Occurs(s, t) {
      NoOccurrenceUnchanged(s, t, v);
    } else if v == t {
      ReplaceBySelf(s, t);
    } else if |v| == |t| {
      ReplaceChangesSameLength(s, t, v);
    } else {
      IncludesGuardAgrees(s, t);
      ReplaceAllLength(s, t, v);
      var c := Count(s, t);
      if |v| < |t| {
        MulStrict(c, |v|, |t|);
      } else {
        MulStrict(c, |t|, |v|);
      }
      assert |ReplaceAll(s, t, v)| != |s|;
    }
  }

  lemma MulStrict(c: nat, a: nat, b: nat)
    requires c > 0 && a < b
    ensures c * a < c * b
  {
  }

  /** What an occurrence of an identifier key's token puts in a text: two
      opening braces, the key, which holds no brace, and two closing braces. */
  lemma TokenShape(s: string, k: string, i: int)
    requires IsIdentifier(k) && OccursAt(s, Token(k), i)
    ensures s[i] == '{' && s[i + 1] == '{'
    ensures s[i + |k| + 2] == '}' && s[i + |k| + 3] == '}'
    ensures s[i + 2..i + 2 + |k|] == k
    ensures forall p | i + 2 <= p < i + 2 + |k| :: s[p] != '{' && s[p] != '}'
  {
    var t := Token(k);
    forall m | 0 <= m < |t|
      ensures s[i + m] == t[m]
    {
      assert s[i..i + |t|][m] == t[m];
    }
    forall p | i + 2 <= p < i + 2 + |k|
      ensures s[p] == k[p - i - 2] && s[p] != '{' && s[p] != '}'
    {
      assert s[i + (p - i)] == t[p - i];
      assert IsIdentifierChar(k[p - i - 2]);
    }
    assert s[i + 0] == t[0] && s[i + 1] == t[1];
    assert s[i + (|k| + 2)] == t[|k| + 2] && s[i + (|k| + 3)] == t[|k| + 3];
  }

  lemma SameStartSameToken(s: string, k1: string, k2: string, i: int)
    requires IsIdentifier(k1) && IsIdentifier(k2)
    requires OccursAt(s, Token(k1), i) && OccursAt(s, Token(k2), i)
    ensures k1 == k2
  {
    TokenShape(s, k1, i);
    TokenShape(s, k2, i);
    assert |k1| == |k2|;
  }

  lemma NoTokenStartsInside(s: string, k1: string, k2: string, i: int, j: int)
    requires IsIdentifier(k1) && IsIdentifier(k2)
    requires OccursAt(s, Token(k1), i) && OccursAt(s, Token(k2), j)
    requires i <= j < i + |Token(k1)|
    ensures k1 == k2
  {
    TokenShape(s, k1, i);
    TokenShape(s, k2, j);
    assert j == i;
    SameStartSameToken(s, k1, k2, i);
  }

  /** Occurrences of the tokens of two different identifier keys never
      overlap. */
  lemma TokensDisjoint(s: string, k1: string, k2: string, i: int, j: int)
    requires IsIdentifier(k1) && IsIdentifier(k2) && k1 != k2
    requires OccursAt(s, Token(k1), i) && OccursAt(s, Token(k2), j)
    ensures i + |Token(k1)| <= j || j + |Token(k2)| <= i
  {
    if i <= j && j < i + |Token(k1)| {
      NoTokenStartsInside(s, k1, k2, i, j);
    } else if j <= i && i < j + |Token(k2)| {
      NoTokenStartsInside(s, k2, k1, j, i);
    }
  }

  lemma ShiftRight(p: string, r: string, t: string, j: int)
    requires OccursAt(r, t, j)
    ensures OccursAt(p + r, t, |p| + j)
  {
    assert (p + r)[|p| + j..|p| + j + |t|] == r[j..j + |t|];
  }

  /** The token of an identifier key cannot overlap itself: two of its
      occurrences lie a whole token apart. */
  lemma TokenSelfDisjoint(s: string, k: string, i: int, j: int)
    requires IsIdentifier(k) && OccursAt(s, Token(k), i) && OccursAt(s, Token(k), j) && i < j
    ensures i + |Token(k)| <= j
  {
    TokenShape(s, k, i);
    TokenShape(s, k, j);
  }

  /** `Count` matches without skipping any occurrence of an identifier
      token: the count of a text is whether the token starts at its first
      character plus the count of the rest. */
  lemma CountStep(s: string, k: string)
    requires IsIdentifier(k) && |s| > 0
    ensures Count(s, Token(k)) == (if OccursAt(s, Token(k), 0) then 1 else 0) + Count(s[1..], Token(k))
  {
    var t := Token(k);
    if |s| >= |t| && s[..|t|] == t {
      assert OccursAt(s, t, 0);
      forall j | 0 <= j < |t| - 1
        ensures !OccursAt(s[1..], t, j)
      {
        ShiftOccurrence(s, t, 1, j);
        if OccursAt(s, t, j + 1) {
          TokenSelfDisjoint(s, k, 0, j + 1);
        }
      }
      CountSkipPrefix(s[1..], t, |t| - 1);
      assert s[1..][|t| - 1..] == s[|t|..];
    }
  }

  /** Positions where the token does not start can be dropped from the
      front without changing the count. */
  lemma {:induction false} CountSkipPrefix(s: string, t: string, n: nat)
    requires |t| > 0 && n <= |s|
    requires forall j | 0 <= j < n :: !OccursAt(s, t, j)
    ensures Count(s, t) == Count(s[n..], t)
    decreases n
  {
    if n == 0 {
      assert s[0..] == s;
    } else if |s| >= |t| {
      assert !OccursAt(s, t, 0);
      forall j | 0 <= j < n - 1
        ensures !OccursAt(s[1..], t, j)
      {
        ShiftOccurrence(s, t, 1, j);
      }
      CountSkipPrefix(s[1..], t, n - 1);
      assert s[1..][n - 1..] == s[n..];
    }
  }

  /** Text put in front never lowers the count of an identifier token. */
  lemma {:induction false} CountPrepend(p: string, r: string, k: string)
    requires IsIdentifier(k)
    ensures Count(p + r, Token(k)) >= Count(r, Token(k))
    decreases |p|
  {
    if p == [] {
      assert p + r == r;
    } else {
      CountStep(p + r, k);
      assert (p + r)[1..] == p[1..] + r;
      CountPrepend(p[1..], r, k);
    }
  }

  /** Replacing one key's token keeps every occurrence of another key's
      token: the result holds at least as many of them as the text did. */
  lemma {:induction false} OtherTokensKept(s: string, k: string, k2: string, v: string)
    requires IsIdentifier(k) && IsIdentifier(k2) && k != k2
    ensures Count(ReplaceAll(s, Token(k), v), Token(k2)) >= Count(s, Token(k2))
    decreases |s|
  {
    var t, t2 := Token(k), Token(k2);
    var r := ReplaceAll(s, t, v);
    if |s| < |t| {
    } else if s[..|t|] == t {
      var rest := ReplaceAll(s[|t|..], t, v);
      assert r == v + rest;
      assert OccursAt(s, t, 0);
      forall j | 0 <= j < |t|
        ensures !OccursAt(s, t2, j)
      {
        if OccursAt(s, t2, j) {
          TokensDisjoint(s, k, k2, 0, j);
        }
      }
      CountSkipPrefix(s, t2, |t|);
      OtherTokensKept(s[|t|..], k, k2, v);
      CountPrepend(v, rest, k2);
    } else if OccursAt(s, t2, 0) {
      forall m | 0 <= m < |t2|
        ensures !OccursAt(s, t, m)
      {
        if OccursAt(s, t, m) {
          TokensDisjoint(s, k, k2, m, 0);
        }
      }
      PrefixKept(s, t, v, |t2|);
      var rest := ReplaceAll(s[|t2|..], t, v);
      assert r == s[..|t2|] + rest;
      assert s[..|t2|] == t2;
      assert r[..|t2|] == t2 && r[|t2|..] == rest;
      OtherTokensKept(s[|t2|..], k, k2, v);
    } else {
      var rest := ReplaceAll(s[1..], t, v);
      assert r == [s[0]] + rest;
      CountStep(s, k2);
      OtherTokensKept(s[1..], k, k2, v);
      CountPrepend([s[0]], rest, k2);
    }
  }

  /** Replacing one key's token leaves another key's token in the text,
      every occurrence of it included. */
  lemma OtherTokenSurvives(s: string, k: string, k2: string, v: string)
    requires IsIdentifier(k) && IsIdentifier(k2) && k != k2
    requires Occurs(s, Token(k2))
    ensures Occurs(ReplaceAll(s, Token(k), v), Token(k2))
    ensures Count(ReplaceAll(s, Token(k), v), Token(k2)) >= Count(s, Token(k2))
  {
    OtherTokensKept(s, k, k2, v);
    IncludesGuardAgrees(s, Token(k2));
    IncludesGuardAgrees(ReplaceAll(s, Token(k), v), Token(k2));
  }

  lemma ScanTakesAll(t: string, v: string, x: string)
    requires 0 < |t| && |x| < |t|
    ensures ReplaceAll(t + x, t, v) == v + x
  {
    assert (t + x)[..|t|] == t;
    ScanTakes(t + x, t, v);
    assert (t + x)[|t|..] == x;
  }

  lemma ScanSkipsBrace(t: string, v: string, u: string)
    requires |t| > 2 && |u| >= |t| && u[1] == '{' && t[2] != '{'
    ensures ReplaceAll("{" + u, t, v) == "{" + ReplaceAll(u, t, v)
  {
    var s := "{" + u;
    assert s[..|t|][2] == u[1];
    ScanSkips(s, t, v);
    assert s[1..] == u;
  }

  /** A substituted value may assemble a fresh token out of the text around
      a match, so one pass does not always leave the text free of the token:
      with the value `project` for the key `projectName`, the text
      `{{{{projectName}}Name}}` becomes `{{projectName}}`. */
  lemma TokenMayReappear(k: string, v: string, w: string)
    requires IsIdentifier(k) && v + w == k
    ensures ReplaceAll("{{" + Token(k) + w + "}}", Token(k), v) == Token(k)
  {
    var t := Token(k);
    var x := w + "}}";
    var u := t + x;
    assert IsIdentifierChar(k[0]) && t[2] == k[0];
    ScanTakesAll(t, v, x);
    assert u[0] == '{';
    ScanSkipsBrace(t, v, u);
    ScanSkipsBrace(t, v, "{" + u);
    assert "{{" + t + w + "}}" == "{" + ("{" + u);
    assert "{" + ("{" + (v + x)) == t;
  }

  /** One entry of the variable mapping: a key and its value. */
  datatype Binding = Binding(key: string, value: string)

  /** The per-key loop over one text: each binding in order, when its token
      occurs in the text so far, has every occurrence replaced and sets the
      modified flag. A text whose flag stays clear is the original text. */
  function SubstituteAll(c: string, vars: seq<Binding>): (r: (string, bool))
    ensures !r.1 ==> r.0 == c
    decreases |vars|
  {
    if vars == [] then (c, false)
    else
      var prev := SubstituteAll(c, vars[..|vars| - 1]);
      var b := vars[|vars| - 1];
      if Occurs(prev.0, Token(b.key)) then (ReplaceAll(prev.0, Token(b.key), b.value), true)
      else prev
  }

  /** Each later key works on the output of the earlier ones, replacing every
      occurrence of its token in it. */
  lemma SubstituteStep(c: string, vars: seq<Binding>, b: Binding)
    ensures SubstituteAll(c, vars + [b]).0
            == ReplaceAll(SubstituteAll(c, vars).0, Token(b.key), b.value)
    ensures SubstituteAll(c, vars + [b]).1
            == (SubstituteAll(c, vars).1 || Occurs(SubstituteAll(c, vars).0, Token(b.key)))
  {
    assert (vars + [b])[..|vars|] == vars;
    var prev := SubstituteAll(c, vars);
    if !Occurs(prev.0, Token(b.key)) {
      NoOccurrenceUnchanged(prev.0, Token(b.key), b.value);
    }
  }

  /** A binding whose value is its own token leaves the text as it was, yet
      sets the flag when the token occurs: the file is then written back with
      the same content. */
  lemma FlagSetWithoutChange(c: string, k: string)
    requires Occurs(c, Token(k))
    ensures SubstituteAll(c, [Binding(k, Token(k))]) == (c, true)
  {
    assert [Binding(k, Token(k))][..0] == [];
    ReplaceBySelf(c, Token(k));
  }

  /** The flag is set exactly when the token of some mapped key occurs in the
      original text. */
  lemma {:induction false} ModifiedIffSomeToken(c: string, vars: seq<Binding>)
    ensures SubstituteAll(c, vars).1 <==>
            exists i :: 0 <= i < |vars| && Occurs(c, Token(vars[i].key))
    decreases |vars|
  {
    if vars != [] {
      var init := vars[..|vars| - 1];
      ModifiedIffSomeToken(c, init);
      if SubstituteAll(c, vars).1 && !SubstituteAll(c, init).1 {
        assert Occurs(c, Token(vars[|vars| - 1].key));
      }
      if SubstituteAll(c, init).1 {
        var i :| 0 <= i < |init| && Occurs(c, Token(init[i].key));
        assert vars[i] == init[i];
      }
      if exists i :: 0 <= i < |vars| && Occurs(c, Token(vars[i].key)) {
        var i :| 0 <= i < |vars| && Occurs(c, Token(vars[i].key));
        if i < |init| {
          assert init[i] == vars[i];
        }
      }
    }
  }

  /** Tokens of keys that the mapping does not hold survive substitution. */
  lemma {:induction false} UnmappedTokenSurvives(c: string, vars: seq<Binding>, k: string)
    requires IsIdentifier(k) && Occurs(c, Token(k))
    requires forall i | 0 <= i < |vars| :: IsIdentifier(vars[i].key) && vars[i].key != k
    ensures Occurs(SubstituteAll(c, vars).0, Token(k))
    ensures Count(SubstituteAll(c, vars).0, Token(k)) >= Count(c, Token(k))
    decreases |vars|
  {
    if vars != [] {
      var init := vars[..|vars| - 1];
      var b := vars[|vars| - 1];
      UnmappedTokenSurvives(c, init, k);
      var prev := SubstituteAll(c, init);
      if Occurs(prev.0, Token(b.key)) {
        OtherTokenSurvives(prev.0, b.key, k, b.value);
      }
    }
  }

  // ---------------------------------------------------------------------
  // The replace call as written: the value is a replacement PATTERN.

  /** Expansion of a replacement pattern of `String.prototype.replace` for a
      pattern without capture groups: `$$` is `$`, `$&` the match, `` $` ``
      the text before it, `$'` the text after it; any other `$` is literal. */
  function Expand(r: string, matched: string, before: string, after: string): (e: string)
    ensures '$' !in r ==> e == r
    decreases |r|
  {
    if |r| == 0 then ""
    else if r[0] == '$' && |r| >= 2 && r[1] == '$' then "$" + Expand(r[2..], matched, before, after)
    else if r[0] == '$' && |r| >= 2 && r[1] == '&' then matched + Expand(r[2..], matched, before, after)
    else if r[0] == '$' && |r| >= 2 && r[1] == '`' then before + Expand(r[2..], matched, before, after)
    else if r[0] == '$' && |r| >= 2 && r[1] == '\'' then after + Expand(r[2..], matched, before, after)
    else [r[0]] + Expand(r[1..], matched, before, after)
  }

  /** The global replace from index `i` on, each match replaced by the
      expansion of the value as a pattern. */
  function ScanPattern(s: string, t: string, v: string, i: nat): (r: string)
    requires |t| > 0 && i <= |s|
    ensures '$' !in v ==> r == ReplaceAll(s[i..], t, v)
    decreases |s| - i
  {
    if |s| - i < |t| then s[i..]
    else if s[i..i + |t|] == t then
      assert s[i..][..|t|] == t && s[i..][|t|..] == s[i + |t|..];
      Expand(v, t, s[..i], s[i + |t|..]) + ScanPattern(s, t, v, i + |t|)
    else
      assert s[i..][..|t|] != t && s[i..][1..] == s[i + 1..];
      [s[i]] + ScanPattern(s, t, v, i + 1)
  }

  /** `content.replace(new RegExp(placeholder, 'g'), value)` for a token
      that the regular expression matches literally. */
  function ReplacePattern(s: string, t: string, v: string): (r: string)
    requires |t| > 0
    ensures '$' !in v ==> r == ReplaceAll(s, t, v)
  {
    assert s[0..] == s;
    ScanPattern(s, t, v, 0)
  }

  /** A project name holding `$$` reaches the file with one `$` only. */
  lemma PatternReplaceMangles()
    ensures ReplacePattern(Token("projectName"), Token("projectName"), "a$$b") == "a$b"
    ensures ReplaceAll(Token("projectName"), Token("projectName"), "a$$b") == "a$$b"
  {
    var t := Token("projectName");
    var v: string := "a$$b";
    assert t[0..0 + |t|] == t;
    assert Expand(v[3..], t, [], []) == "b";
    assert Expand(v[1..], t, [], []) == "$" + Expand(v[3..], t, [], []);
    assert Expand(v, t, [], []) == "a$b";
    assert ScanPattern(t, t, v, |t|) == [];
    assert t[..0] == [] && t[|t|..] == [];
    assert t[..|t|] == t && t[|t|..] == [];
  }
}
