/** Case folding of text, with the Unicode tables as a parameter. */
module CaseFolding {

  /** `str.casefold`, character by character; one character may fold to several. */
  function FoldText(fold: char -> string, s: string): string {
    if s == "" then "" else fold(s[0]) + FoldText(fold, s[1..])
  }

  /** Lower case of the ASCII letters. */
  function Lower(c: char): char {
    if 'A' <= c <= 'Z' then c - 'A' + 'a' else c
  }

  /**
   * What is used of Unicode folding and lowering: it is idempotent, drops nothing, neither makes nor moves
   * separators and dots, and lowers ASCII.
   */
  ghost predicate Folding(fold: char -> string) {
    forall c: char ::
      && fold(c) != ""
      && (forall k :: 0 <= k < |fold(c)| ==>
            fold(fold(c)[k]) == [fold(c)[k]] && (fold(c)[k] in "\\/." ==> fold(c)[k] == c))
      && (c < '\U{80}' ==> fold(c) == [Lower(c)])
  }

  ghost predicate Folded(fold: char -> string, s: string) {
    forall k :: 0 <= k < |s| ==> fold(s[k]) == [s[k]]
  }

  lemma {:induction false} FoldOfFolded(fold: char -> string, s: string)
    requires Folded(fold, s)
    ensures FoldText(fold, s) == s
  {
    if s != "" {
      FoldOfFolded(fold, s[1..]);
    }
  }

  lemma {:induction false} FoldTextIs(fold: char -> string, s: string)
    requires Folding(fold)
    ensures var t := FoldText(fold, s);
            && Folded(fold, t) && |t| >= |s|
            && (forall k :: 0 <= k < |t| && t[k] in "\\/." ==> t[k] in s)
            && (s == "." <==> t == ".") && (s == ".." <==> t == "..")
  {
    if s != "" {
      FoldTextIs(fold, s[1..]);
      var h, rest, t := fold(s[0]), FoldText(fold, s[1..]), FoldText(fold, s);
      assert t == h + rest;
      assert forall k :: 0 <= k < |t| ==> t[k] == if k < |h| then h[k] else rest[k - |h|];
      assert Lower('.') == '.' && fold('.') == ".";
      DotsOnly(s, t, h, rest);
    }
  }

  lemma DotsOnly(s: string, t: string, h: string, rest: string)
    requires s != "" && h != "" && t == h + rest && |rest| >= |s| - 1
    requires s[0] == '.' ==> h == "."
    requires forall k :: 0 <= k < |h| && h[k] == '.' ==> s[0] == '.'
    requires forall k :: 0 <= k < |rest| && rest[k] == '.' ==> '.' in s[1..]
    requires s[1..] == "" ==> rest == ""
    requires s[1..] == "." <==> rest == "."
    ensures (s == "." <==> t == ".") && (s == ".." <==> t == "..")
  {
    assert s == [s[0]] + s[1..];
    if t == "." || t == ".." {
      assert h[0] == t[0] == '.';
      assert s[0] == '.' && h == ".";
      assert rest == t[1..];
    }
    if s == "." || s == ".." {
      assert h == ".";
    }
  }

  lemma {:induction false} FoldConcat(fold: char -> string, s: string, t: string)
    ensures FoldText(fold, s + t) == FoldText(fold, s) + FoldText(fold, t)
  {
    if s == "" {
      assert s + t == t;
    } else {
      hide FoldText;
      var rest := s[1..];
      FoldConcat(fold, rest, t);
      FoldStep(fold, s + t, s[0], rest + t);
      FoldStep(fold, s, s[0], rest);
      Regroup(fold(s[0]), FoldText(fold, rest), FoldText(fold, t));
    }
  }

  lemma Regroup(a: string, b: string, c: string)
    ensures a + (b + c) == (a + b) + c
  {
  }

  lemma FoldStep(fold: char -> string, s: string, first: char, rest: string)
    requires s == [first] + rest
    ensures FoldText(fold, s) == fold(first) + FoldText(fold, rest)
  {
    assert s[1..] == rest;
  }

  /** The texts folded one by one. */
  function FoldParts(fold: char -> string, ps: seq<string>): (r: seq<string>)
    ensures |r| == |ps| && forall k :: 0 <= k < |ps| ==> r[k] == FoldText(fold, ps[k])
  {
    seq(|ps|, k requires 0 <= k < |ps| => FoldText(fold, ps[k]))
  }
}
