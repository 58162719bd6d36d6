/** Escaping a path for a LIKE pattern, against a LIKE matcher with backslash as the escape character. */
module PathKeys {
  import opened CaseFolding
  import opened Paths

  /** LIKE ignores the case of ASCII letters only. */
  function LowerAll(s: string): (r: string)
    ensures |r| == |s| && forall k :: 0 <= k < |s| ==> r[k] == Lower(s[k])
  {
    seq(|s|, k requires 0 <= k < |s| => Lower(s[k]))
  }

  /** `text LIKE pattern ESCAPE '\'` */
  predicate Like(pattern: string, s: string)
    decreases |pattern| + |s|
  {
    if pattern == "" then s == ""
    else if pattern[0] == '%' then Like(pattern[1..], s) || (s != "" && Like(pattern, s[1..]))
    else if s == "" then false
    else if pattern[0] == '_' then Like(pattern[1..], s[1..])
    else if pattern[0] == '\\' then |pattern| > 1 && Lower(pattern[1]) == Lower(s[0]) && Like(pattern[2..], s[1..])
    else Lower(pattern[0]) == Lower(s[0]) && Like(pattern[1..], s[1..])
  }

  /** `value.replace(c, with)` for a single character. */
  function Replace(s: string, c: char, with: string): string {
    if s == "" then "" else (if s[0] == c then with else [s[0]]) + Replace(s[1..], c, with)
  }

  function EscapeLike(value: string): string {
    Replace(Replace(Replace(value, '\\', "\\\\"), '%', "\\%"), '_', "\\_")
  }

  function EscapeChar(c: char): string {
    if c == '\\' || c == '%' || c == '_' then ['\\', c] else [c]
  }

  function EscapeEach(s: string): string {
    if s == "" then "" else EscapeChar(s[0]) + EscapeEach(s[1..])
  }

  lemma {:induction false} ReplaceConcat(a: string, b: string, c: char, with: string)
    ensures Replace(a + b, c, with) == Replace(a, c, with) + Replace(b, c, with)
  {
    if a == "" {
      assert a + b == b;
    } else {
      assert (a + b)[1..] == a[1..] + b;
      ReplaceConcat(a[1..], b, c, with);
    }
  }

  lemma ReplaceOne(x: char, c: char, with: string)
    ensures Replace([x], c, with) == if x == c then with else [x]
  {
    assert [x][1..] == "";
  }

  lemma ReplaceTwo(x: char, y: char, c: char, with: string)
    ensures Replace([x, y], c, with) == (if x == c then with else [x]) + (if y == c then with else [y])
  {
    ReplaceConcat([x], [y], c, with);
    assert [x] + [y] == [x, y];
    ReplaceOne(x, c, with);
    ReplaceOne(y, c, with);
  }

  lemma EscapeHead(x: char)
    ensures EscapeLike([x]) == EscapeChar(x)
  {
    ReplaceOne(x, '\\', "\\\\");
    ReplaceOne(x, '%', "\\%");
    ReplaceOne(x, '_', "\\_");
    ReplaceTwo('\\', '\\', '%', "\\%");
    ReplaceTwo('\\', '\\', '_', "\\_");
    ReplaceTwo('\\', '%', '_', "\\_");
  }

  /** The three replacements in this order act on each character once. */
  lemma {:induction false} EscapeIsPerCharacter(s: string)
    ensures EscapeLike(s) == EscapeEach(s)
  {
    if s != "" {
      var h, t := [s[0]], s[1..];
      assert s == h + t;
      EscapeIsPerCharacter(t);
      EscapeHead(s[0]);
      ReplaceConcat(h, t, '\\', "\\\\");
      var a, b := Replace(h, '\\', "\\\\"), Replace(t, '\\', "\\\\");
      ReplaceConcat(a, b, '%', "\\%");
      ReplaceConcat(Replace(a, '%', "\\%"), Replace(b, '%', "\\%"), '_', "\\_");
      assert EscapeLike(s) == EscapeLike(h) + EscapeLike(t);
    }
  }

  lemma {:induction false} PercentMatchesAll(s: string)
    ensures Like("%", s)
  {
    assert "%"[1..] == "";
    if s != "" {
      PercentMatchesAll(s[1..]);
    }
  }

  lemma {:induction false} EachMatchesPrefix(p: string, s: string)
    ensures Like(EscapeEach(p) + "%", s) <==> |p| <= |s| && LowerAll(s[..|p|]) == LowerAll(p)
  {
    var pattern := EscapeEach(p) + "%";
    if p == "" {
      assert pattern == "%";
      PercentMatchesAll(s);
    } else {
      var rest := EscapeEach(p[1..]) + "%";
      assert pattern == EscapeChar(p[0]) + rest;
      if s != "" {
        EachMatchesPrefix(p[1..], s[1..]);
        assert Like(pattern, s) <==> Lower(p[0]) == Lower(s[0]) && Like(rest, s[1..]) by {
          if |EscapeChar(p[0])| == 2 {
            assert pattern[0] == '\\' && pattern[1] == p[0] && pattern[2..] == rest;
          } else {
            assert pattern[0] == p[0] && pattern[1..] == rest;
          }
        }
        PrefixStep(p, s);
      }
    }
  }

  lemma PrefixStep(p: string, s: string)
    requires p != "" && s != ""
    ensures |p| <= |s| && LowerAll(s[..|p|]) == LowerAll(p)
            <==> Lower(p[0]) == Lower(s[0]) && |p[1..]| <= |s[1..]| && LowerAll(s[1..][..|p[1..]|]) == LowerAll(p[1..])
  {
    if |p| <= |s| {
      assert LowerAll(s[..|p|]) == [Lower(s[0])] + LowerAll(s[1..][..|p[1..]|]);
      assert LowerAll(p) == [Lower(p[0])] + LowerAll(p[1..]);
    }
  }

  /** An escaped text followed by `%` matches exactly the texts it is a prefix of, up to ASCII case. */
  lemma EscapedMatchesPrefix(p: string, s: string)
    ensures Like(EscapeLike(p) + "%", s) <==> |p| <= |s| && LowerAll(s[..|p|]) == LowerAll(p)
  {
    EscapeIsPerCharacter(p);
    EachMatchesPrefix(p, s);
  }

  /** `rstrip("\\/")` */
  function StripSeparators(key: string): (r: string)
    ensures r <= key
    ensures r != "" ==> r[|r| - 1] != '\\' && r[|r| - 1] != '/'
    ensures forall k :: |r| <= k < |key| ==> key[k] == '\\' || key[k] == '/'
  {
    if key != "" && (key[|key| - 1] == '\\' || key[|key| - 1] == '/') then StripSeparators(key[..|key| - 1]) else key
  }

  /** The pattern for a canonical key. */
  function SqlPathPrefix(key: string): string {
    EscapeLike(StripSeparators(key)) + "%"
  }

  /** The names along a path, up to ASCII case; either separator ends one. */
  function Names(s: string): seq<string> {
    Components('\\', true, Slashes(LowerAll(s)))
  }

  /** The path is the directory or something below it. */
  predicate LiesIn(directory: string, s: string) {
    Names(directory) <= Names(s)
  }

  lemma LowerSplits(s: string, n: nat)
    requires n <= |s|
    ensures Slashes(LowerAll(s)) == Slashes(LowerAll(s[..n])) + Slashes(LowerAll(s[n..]))
  {
  }

  lemma NamesContinue(p: string, s: string)
    requires p != "" && p[|p| - 1] !in "\\/" && |p| <= |s| && LowerAll(s[..|p|]) == LowerAll(p)
    ensures LiesIn(p, s) <==> |s| == |p| || s[|p|] in "\\/"
  {
    var q, rest := Slashes(LowerAll(p)), Slashes(LowerAll(s[|p|..]));
    LowerSplits(s, |p|);
    assert q != "" && q[|q| - 1] != '\\';
    assert rest != "" ==> (rest[0] == '\\' <==> s[|p|] in "\\/");
    hide LowerAll, Slashes, Components;
    if rest == "" || rest[0] == '\\' {
      ComponentsAppend('\\', q, rest);
    } else {
      ComponentsExtend('\\', q, rest);
    }
  }

  /**
   * A key that the pattern of a directory matches lies in that directory exactly when the stripped prefix is
   * followed by a separator, or by nothing, or is empty itself.
   */
  lemma MatchedLiesIn(key: string, s: string)
    requires Like(SqlPathPrefix(key), s)
    ensures var p := StripSeparators(key);
            |p| <= |s| && (LiesIn(p, s) <==> p == "" || |s| == |p| || s[|p|] in "\\/")
  {
    var p := StripSeparators(key);
    EscapedMatchesPrefix(p, s);
    if p != "" {
      NamesContinue(p, s);
    } else {
      assert Components('\\', true, "") == [];
    }
  }

  /**
   * Since no separator is put back, the pattern of a directory also matches each sibling whose name starts
   * with the directory's name, and everything below it.
   */
  lemma SiblingsMatch(key: string, suffix: string)
    requires StripSeparators(key) != "" && suffix != "" && suffix[0] !in "\\/"
    ensures var p := StripSeparators(key);
            Like(SqlPathPrefix(key), p + suffix) && !LiesIn(p, p + suffix)
  {
    var p := StripSeparators(key);
    EscapedMatchesPrefix(p, p + suffix);
    assert (p + suffix)[..|p|] == p;
    MatchedLiesIn(key, p + suffix);
  }

  /** Nothing in the directory is missed: what is spelled below it, up to ASCII case, is matched. */
  lemma InsideMatches(key: string, p: string, suffix: string)
    requires LowerAll(p) == LowerAll(StripSeparators(key)) && (suffix == "" || suffix[0] in "\\/")
    ensures Like(SqlPathPrefix(key), p + suffix) && LiesIn(StripSeparators(key), p + suffix)
  {
    var q := StripSeparators(key);
    assert |p| == |LowerAll(p)| == |q|;
    assert (p + suffix)[..|q|] == p;
    EscapedMatchesPrefix(q, p + suffix);
    MatchedLiesIn(key, p + suffix);
  }
}
