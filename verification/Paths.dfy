/** Paths as components between separators: splitting, joining and folding them. */
module Paths {
  import opened CaseFolding
  import opened Joining

  /** `s.replace("/", "\\")` */
  function Slashes(s: string): (r: string)
    ensures |r| == |s| && forall k :: 0 <= k < |s| ==> r[k] == if s[k] == '/' then '\\' else s[k]
  {
    seq(|s|, k requires 0 <= k < |s| => if s[k] == '/' then '\\' else s[k])
  }

  lemma SlashesKeep(s: string)
    requires '/' !in s
    ensures Slashes(s) == s
  {
  }

  predicate IsLetter(c: char) {
    'A' <= c <= 'Z' || 'a' <= c <= 'z'
  }

  predicate DriveQualified(s: string) {
    |s| >= 2 && IsLetter(s[0]) && s[1] == ':'
  }

  /** The first separator at or after `i`, or the end. */
  function Separator(sep: char, s: string, i: nat): (r: nat)
    requires i <= |s|
    ensures i <= r <= |s| && (r < |s| ==> s[r] == sep) && forall k :: i <= k < r ==> s[k] != sep
    decreases |s| - i
  {
    if i == |s| || s[i] == sep then i else Separator(sep, s, i + 1)
  }

  /** A component that is kept; `dots` says whether `.` is. */
  predicate IsPart(sep: char, dots: bool, p: string) {
    p != "" && (dots || p != ".") && sep !in p
  }

  ghost predicate AreParts(sep: char, dots: bool, ps: seq<string>) {
    forall k :: 0 <= k < |ps| ==> IsPart(sep, dots, ps[k])
  }

  /** The components of a path, without empty ones and, unless `dots`, without `.` */
  function Components(sep: char, dots: bool, s: string): (ps: seq<string>)
    ensures AreParts(sep, dots, ps)
  {
    var e := Separator(sep, s, 0);
    var rest := if e < |s| then Components(sep, dots, s[e + 1..]) else [];
    if IsPart(sep, dots, s[..e]) then [s[..e]] + rest else rest
  }

  function Path(sep: char, ps: seq<string>): string {
    JoinWith([sep], ps)
  }

  lemma SeparatorIs(sep: char, p: string, rest: string)
    requires sep !in p && (rest == "" || rest[0] == sep)
    ensures Separator(sep, p + rest, 0) == |p|
  {
    var r := Separator(sep, p + rest, 0);
    assert forall k :: 0 <= k < |p| ==> (p + rest)[k] == p[k];
    assert rest != "" ==> (p + rest)[|p|] == sep;
  }

  lemma SeparatorFirst(sep: char, dots: bool, s: string)
    requires s != "" && s[0] == sep
    ensures Components(sep, dots, s) == Components(sep, dots, s[1..])
  {
    assert Separator(sep, s, 0) == 0;
    assert s[..0] == "";
  }

  lemma PathStep(sep: char, ps: seq<string>)
    requires |ps| >= 2
    ensures Path(sep, ps) == ps[0] + ([sep] + Path(sep, ps[1..]))
  {
  }

  lemma {:induction false} ComponentsOfPath(sep: char, dots: bool, ps: seq<string>)
    requires AreParts(sep, dots, ps)
    ensures Components(sep, dots, Path(sep, ps)) == ps
  {
    if ps == [] {
      assert Components(sep, dots, "") == [];
    } else {
      var p, s := ps[0], Path(sep, ps);
      if |ps| == 1 {
        SeparatorIs(sep, p, "");
        assert p + "" == s && s[..|p|] == p;
      } else {
        var rest := Path(sep, ps[1..]);
        PathStep(sep, ps);
        SeparatorIs(sep, p, [sep] + rest);
        assert s[..|p|] == p && s[|p| + 1..] == rest;
        ComponentsOfPath(sep, dots, ps[1..]);
      }
    }
  }

  lemma FirstComponent(sep: char, p: string, rest: string)
    requires p != "" && sep !in p && (rest == "" || rest[0] == sep)
    ensures Components(sep, true, p + rest) == [p] + Components(sep, true, rest)
  {
    var s := p + rest;
    SeparatorIs(sep, p, rest);
    assert s[..|p|] == p;
    if rest == "" {
      assert s == p && Components(sep, true, "") == [];
    } else {
      SeparatorFirst(sep, true, rest);
      assert s[|p| + 1..] == rest[1..];
    }
  }

  lemma OneStep(sep: char, s: string, e: nat)
    requires e == Separator(sep, s, 0) < |s|
    ensures Components(sep, true, s) == (if e > 0 then [s[..e]] else []) + Components(sep, true, s[e + 1..])
  {
  }

  /** Past the first separator of a path, whatever follows the path. */
  lemma Descend(sep: char, p: string, t: string, e: nat, first: seq<string>, rest: string)
    requires e == Separator(sep, p, 0) < |p| && first == (if e > 0 then [p[..e]] else []) && rest == p[e + 1..]
    ensures Components(sep, true, p) == first + Components(sep, true, rest)
    ensures Components(sep, true, p + t) == first + Components(sep, true, rest + t)
  {
    hide Components;
    OneStep(sep, p, e);
    SeparatorInFront(sep, p, t, e);
    OneStep(sep, p + t, e);
    FrontAndRest(p, t, e);
  }

  lemma SeparatorInFront(sep: char, p: string, t: string, e: nat)
    requires e == Separator(sep, p, 0) < |p|
    ensures Separator(sep, p + t, 0) == e
  {
    SeparatorIs(sep, p[..e], p[e..] + t);
    assert p[..e] + (p[e..] + t) == p + t;
  }

  lemma FrontAndRest(p: string, t: string, e: nat)
    requires e < |p|
    ensures (p + t)[..e] == p[..e] && (p + t)[e + 1..] == p[e + 1..] + t
  {
  }

  /** What begins with a separator adds its components. */
  lemma {:induction false} ComponentsAppend(sep: char, p: string, t: string)
    requires p != "" && p[|p| - 1] != sep && (t == "" || t[0] == sep)
    ensures Components(sep, true, p + t) == Components(sep, true, p) + Components(sep, true, t)
    decreases |p|
  {
    hide Components;
    var e := Separator(sep, p, 0);
    if e == |p| {
      FirstComponent(sep, p, t);
      FirstComponent(sep, p, "");
      assert p + "" == p;
      NoComponents(sep);
    } else {
      var first, rest := if e > 0 then [p[..e]] else [], p[e + 1..];
      assert rest != "" && rest[|rest| - 1] == p[|p| - 1];
      ComponentsAppend(sep, rest, t);
      Descend(sep, p, t, e, first, rest);
      var a, b := Components(sep, true, rest), Components(sep, true, t);
      assert first + (a + b) == (first + a) + b;
    }
  }

  function FirstPart(sep: char, dots: bool, p: string): seq<string> {
    if IsPart(sep, dots, p) then [p] else []
  }

  /** The components of what comes before a separator and of what follows it. */
  lemma ComponentsBehind(sep: char, dots: bool, p: string, rest: string)
    requires sep !in p
    ensures Components(sep, dots, p + [sep] + rest) == FirstPart(sep, dots, p) + Components(sep, dots, rest)
    ensures Components(sep, dots, p) == FirstPart(sep, dots, p)
  {
    var s := p + [sep] + rest;
    SeparatorIs(sep, p, [sep] + rest);
    assert p + ([sep] + rest) == s && s[..|p|] == p && s[|p| + 1..] == rest;
    SeparatorIs(sep, p, "");
    assert p + "" == p && p[..|p|] == p;
  }

  /** Two texts with a separator between them have the components of the one and then those of the other. */
  lemma {:induction false} ComponentsConcat(sep: char, dots: bool, a: string, b: string)
    ensures Components(sep, dots, a + [sep] + b) == Components(sep, dots, a) + Components(sep, dots, b)
    decreases |a|
  {
    hide Components, FirstPart, Separator;
    var e := Separator(sep, a, 0);
    if e < |a| {
      var p, rest := a[..e], a[e + 1..];
      assert a == p + [sep] + rest;
      assert a + [sep] + b == p + [sep] + (rest + [sep] + b);
      ComponentsBehind(sep, dots, p, rest);
      ComponentsBehind(sep, dots, p, rest + [sep] + b);
      ComponentsConcat(sep, dots, rest, b);
    } else {
      ComponentsBehind(sep, dots, a, b);
    }
  }

  lemma NoComponents(sep: char)
    ensures Components(sep, true, "") == []
  {
  }

  ghost predicate Extends(a: seq<string>, b: seq<string>) {
    a != [] && |a| <= |b| && b[|a| - 1] != a[|a| - 1]
  }

  lemma ExtendsAfter(first: seq<string>, a: seq<string>, b: seq<string>)
    requires Extends(a, b)
    ensures Extends(first + a, first + b)
  {
  }

  /** What begins with anything else makes the last component longer. */
  lemma {:induction false} ComponentsExtend(sep: char, p: string, t: string)
    requires p != "" && p[|p| - 1] != sep && t != "" && t[0] != sep
    ensures Extends(Components(sep, true, p), Components(sep, true, p + t))
    decreases |p|
  {
    hide Components;
    var e := Separator(sep, p, 0);
    if e == |p| {
      LastExtends(sep, p, t);
    } else {
      var first, rest := if e > 0 then [p[..e]] else [], p[e + 1..];
      assert rest != "" && rest[|rest| - 1] == p[|p| - 1];
      ComponentsExtend(sep, rest, t);
      Descend(sep, p, t, e, first, rest);
      ExtendsAfter(first, Components(sep, true, rest), Components(sep, true, rest + t));
    }
  }

  lemma LastExtends(sep: char, p: string, t: string)
    requires p != "" && sep !in p && t != "" && t[0] != sep
    ensures Extends(Components(sep, true, p), Components(sep, true, p + t))
  {
    hide Components;
    FirstComponent(sep, p, "");
    assert p + "" == p;
    NoComponents(sep);
    var k := Separator(sep, t, 0);
    var longer := p + t[..k];
    assert p + t == longer + t[k..];
    FirstComponent(sep, longer, t[k..]);
    assert |longer| > |p|;
  }

  /** No separator at either end and never two in a row. */
  ghost predicate Tight(sep: char, s: string) {
    && (s != "" ==> s[0] != sep && s[|s| - 1] != sep)
    && forall k :: 0 <= k < |s| - 1 ==> s[k] != sep || s[k + 1] != sep
  }

  lemma TightRest(sep: char, s: string, e: nat)
    requires Tight(sep, s) && e < |s| && s[e] == sep
    ensures s[e + 1..] != "" && Tight(sep, s[e + 1..])
  {
    var rest := s[e + 1..];
    assert forall k :: 0 <= k < |rest| ==> rest[k] == s[e + 1 + k];
  }

  /** The components of a tight path rebuild it. */
  lemma {:induction false} PathOfComponents(sep: char, s: string)
    requires Tight(sep, s)
    ensures Path(sep, Components(sep, true, s)) == s
    ensures s == "" <==> Components(sep, true, s) == []
    decreases |s|
  {
    var e := Separator(sep, s, 0);
    if e < |s| {
      TightRest(sep, s, e);
      PathOfComponents(sep, s[e + 1..]);
      assert Components(sep, true, s)[1..] == Components(sep, true, s[e + 1..]);
      PathStep(sep, Components(sep, true, s));
    } else if s != "" {
      assert s[..e] == s;
    }
  }

  lemma {:induction false} PathConcat(sep: char, ps: seq<string>, qs: seq<string>)
    requires ps != [] && qs != []
    ensures Path(sep, ps + qs) == Path(sep, ps) + [sep] + Path(sep, qs)
  {
    var all := ps + qs;
    PathStep(sep, all);
    if |ps| == 1 {
      assert all[1..] == qs;
    } else {
      PathConcat(sep, ps[1..], qs);
      PathStep(sep, ps);
      assert all[1..] == ps[1..] + qs;
    }
  }

  /** `v` continues `u` with a separator and something after it; every path but the empty one continues that. */
  predicate Continues(sep: char, u: string, v: string) {
    if u == "" then v != "" else |u| < |v| && v[..|u|] == u && v[|u|] == sep
  }

  lemma PrefixRest<T>(ps: seq<T>, qs: seq<T>) returns (rest: seq<T>)
    requires ps < qs
    ensures rest != [] && qs == ps + rest
  {
    rest := qs[|ps|..];
  }

  lemma BelowContinues(sep: char, u: string, v: string)
    requires Tight(sep, u) && Tight(sep, v) && u != "" && Components(sep, true, u) < Components(sep, true, v)
    ensures Continues(sep, u, v)
  {
    hide *;
    var ps, qs := Components(sep, true, u), Components(sep, true, v);
    PathOfComponents(sep, u);
    PathOfComponents(sep, v);
    var rest := PrefixRest(ps, qs);
    PathExtends(sep, ps, rest, u, v);
  }

  lemma PathExtends(sep: char, ps: seq<string>, rest: seq<string>, u: string, v: string)
    requires ps != [] && rest != [] && u == Path(sep, ps) && v == Path(sep, ps + rest) && u != ""
    ensures Continues(sep, u, v)
  {
    hide *;
    PathConcat(sep, ps, rest);
    ContinuesAs(sep, u, v, Path(sep, rest));
  }

  lemma ContinuesAs(sep: char, u: string, v: string, tail: string)
    requires u != "" && v == u + [sep] + tail
    ensures Continues(sep, u, v)
  {
    assert v[..|u|] == u && v[|u|] == sep;
  }

  lemma ContinuesBelow(sep: char, u: string, v: string)
    requires Tight(sep, u) && Tight(sep, v) && u != "" && Continues(sep, u, v)
    ensures Components(sep, true, u) < Components(sep, true, v)
  {
    hide Components;
    var t := v[|u|..];
    assert v == u + t && t[0] == sep;
    ComponentsAppend(sep, u, t);
    TightRest(sep, v, |u|);
    SeparatorFirst(sep, true, t);
    assert t[1..] == v[|u| + 1..];
    PathOfComponents(sep, t[1..]);
  }

  /** Of two tight paths one lies below the other by components exactly when it does as text. */
  lemma TightBelow(sep: char, u: string, v: string)
    requires Tight(sep, u) && Tight(sep, v)
    ensures Components(sep, true, u) < Components(sep, true, v) <==> Continues(sep, u, v)
  {
    if u == "" {
      NoComponents(sep);
      PathOfComponents(sep, v);
      hide Components;
    } else {
      hide Components, Tight, Continues;
      if Components(sep, true, u) < Components(sep, true, v) { BelowContinues(sep, u, v); }
      if Continues(sep, u, v) { ContinuesBelow(sep, u, v); }
    }
  }

  lemma {:induction false} PathIsTight(sep: char, ps: seq<string>)
    requires AreParts(sep, true, ps)
    ensures Tight(sep, Path(sep, ps)) && (ps == [] <==> Path(sep, ps) == "")
    ensures |ps| >= 2 ==> sep in Path(sep, ps)
  {
    if |ps| >= 2 {
      PathIsTight(sep, ps[1..]);
      PathStep(sep, ps);
      var s, p, rest := Path(sep, ps), ps[0], Path(sep, ps[1..]);
      assert s[|p|] == sep;
      assert forall k :: 0 <= k < |s| ==> s[k] == if k < |p| then p[k] else if k == |p| then sep else rest[k - |p| - 1];
    }
  }

  /** Dropping components never makes a path longer. */
  lemma {:induction false} PathNoLonger(sep: char, dots: bool, s: string)
    ensures |Path(sep, Components(sep, dots, s))| <= |s|
    decreases |s|
  {
    var e := Separator(sep, s, 0);
    if e < |s| {
      PathNoLonger(sep, dots, s[e + 1..]);
      var rest := Components(sep, dots, s[e + 1..]);
      if Components(sep, dots, s) != rest {
        assert Components(sep, dots, s)[1..] == rest;
      }
    }
  }

  lemma {:induction false} PathChars(sep: char, ps: seq<string>, k: nat)
    requires k < |Path(sep, ps)|
    ensures Path(sep, ps)[k] == sep || exists j :: 0 <= j < |ps| && Path(sep, ps)[k] in ps[j]
  {
    if |ps| > 1 {
      var head := ps[0] + [sep];
      assert Path(sep, ps) == head + Path(sep, ps[1..]);
      if k >= |head| {
        PathChars(sep, ps[1..], k - |head|);
        assert forall j :: 0 <= j < |ps[1..]| ==> ps[1..][j] == ps[j + 1];
      }
    }
  }

  lemma {:induction false} ComponentsChars(sep: char, dots: bool, s: string, k: nat, c: char)
    requires k < |Components(sep, dots, s)| && c in Components(sep, dots, s)[k]
    ensures c in s
    decreases |s|
  {
    var e := Separator(sep, s, 0);
    if e < |s| {
      var rest := Components(sep, dots, s[e + 1..]);
      if Components(sep, dots, s) == rest {
        ComponentsChars(sep, dots, s[e + 1..], k, c);
      } else if k > 0 {
        assert Components(sep, dots, s)[k] == rest[k - 1];
        ComponentsChars(sep, dots, s[e + 1..], k - 1, c);
      }
    }
  }

  lemma {:induction false} ComponentsOfFolded(fold: char -> string, sep: char, dots: bool, s: string)
    requires Folded(fold, s)
    ensures FoldParts(fold, Components(sep, dots, s)) == Components(sep, dots, s)
    decreases |s|
  {
    var e := Separator(sep, s, 0);
    FoldOfFolded(fold, s[..e]);
    if e < |s| {
      ComponentsOfFolded(fold, sep, dots, s[e + 1..]);
      var ps, rest := Components(sep, dots, s), Components(sep, dots, s[e + 1..]);
      forall k | 0 <= k < |ps| ensures FoldText(fold, ps[k]) == ps[k] {
        assert ps[k] == s[..e] || ps[k] in rest;
        assert forall j :: 0 <= j < |rest| ==> FoldParts(fold, rest)[j] == rest[j];
      }
    }
  }

  /** Folding keeps components apart. */
  lemma FoldedPart(fold: char -> string, sep: char, dots: bool, p: string)
    requires Folding(fold) && sep in "\\/" && IsPart(sep, dots, p)
    ensures var q := FoldText(fold, p);
            IsPart(sep, dots, q) && Folded(fold, q) && (q == "." <==> p == ".") && (q == ".." <==> p == "..")
    ensures '/' !in p ==> '/' !in FoldText(fold, p)
  {
    FoldTextIs(fold, p);
    var q := FoldText(fold, p);
    assert forall j :: 0 <= j < |q| && q[j] in "\\/." ==> q[j] in p;
  }

  /** Folding a path folds its components. */
  lemma {:induction false} FoldPath(fold: char -> string, sep: char, ps: seq<string>)
    requires Folding(fold) && sep in "\\/"
    ensures FoldText(fold, Path(sep, ps)) == Path(sep, FoldParts(fold, ps))
  {
    if |ps| >= 2 {
      var rest := Path(sep, ps[1..]);
      FoldPath(fold, sep, ps[1..]);
      assert FoldParts(fold, ps)[1..] == FoldParts(fold, ps[1..]);
      PathStep(sep, ps);
      PathStep(sep, FoldParts(fold, ps));
      FoldConcat(fold, ps[0], [sep] + rest);
      FoldConcat(fold, [sep], rest);
      assert FoldText(fold, [sep]) == [sep] by { assert fold(sep) == [Lower(sep)]; }
    }
  }
}
