/**
 * Source paths and their keys: the display path and key of an input, and the components by which two keys
 * are compared.  A key in normal form is recovered from its components, so no two normal keys share them.
 */
module SourcePaths {
  import opened CaseFolding
  import opened Joining
  import opened Paths
  import opened Wrappers

  import Text

  /**
   * What depends on the machine: the working directory, or the operating system's own way to make a path
   * absolute and to lower its case.
   */
  datatype Host =
    | Posix(cwd: string)
    | Windows(absolute: string -> string, lower: char -> string)

  // ----- Windows paths

  predicate StartsUnc(s: string) {
    |s| >= 2 && s[0] == s[1] == '\\'
  }

  /** `_is_windows_path` */
  predicate IsWindowsPath(v: string) {
    || (DriveQualified(v) && (|v| == 2 || v[2] in "\\/" || v[2..] == "\n"))
    || StartsUnc(v)
    || (|v| >= 2 && v[0] == v[1] == '/')
  }

  predicate DeviceUnc(s: string) {
    |s| >= 8 && s[..4] == "\\\\?\\" && s[4] in "uU" && s[5] in "nN" && s[6] in "cC" && s[7] == '\\'
  }

  /** The length of the drive of a path with two separators in front: up to the end of the share. */
  function UncDrive(s: string): (r: nat)
    requires StartsUnc(s)
    ensures 2 <= r <= |s| && (r < |s| ==> s[r] == '\\')
  {
    var i := Separator('\\', s, if DeviceUnc(s) then 8 else 2);
    if i == |s| then |s| else Separator('\\', s, i + 1)
  }

  /** `ntpath.splitdrive` */
  function SplitDrive(p: string): (r: (string, string))
    ensures r.0 + r.1 == p
  {
    var s := Slashes(p);
    if StartsUnc(s) then (p[..UncDrive(s)], p[UncDrive(s)..])
    else if |p| >= 2 && p[1] == ':' then (p[..2], p[2..])
    else ("", p)
  }

  /** Goes up for each `..`; at a root that does nothing. */
  function Resolve(ps: seq<string>, rooted: bool): seq<string> {
    if ps == [] then [] else
      var n := |ps| - 1;
      var stack := Resolve(ps[..n], rooted);
      if ps[n] != ".." then stack + [ps[n]]
      else if stack == [] then (if rooted then [] else [".."])
      else if stack[|stack| - 1] != ".." then stack[..|stack| - 1]
      else stack + [".."]
  }

  lemma {:induction false} ResolveIs(ps: seq<string>, rooted: bool)
    ensures var r := Resolve(ps, rooted);
            && (forall x :: x in r ==> x in ps)
            && (rooted ==> ".." !in r)
  {
    if ps != [] {
      ResolveIs(ps[..|ps| - 1], rooted);
      assert ps == ps[..|ps| - 1] + [ps[|ps| - 1]];
    }
  }

  /** What has been resolved can be resolved again with what follows it. */
  lemma {:induction false} ResolveConcat(ps: seq<string>, qs: seq<string>, rooted: bool)
    ensures Resolve(ps + qs, rooted) == Resolve(Resolve(ps, rooted) + qs, rooted)
    decreases |qs|
  {
    if qs == [] {
      assert ps + qs == ps && Resolve(ps, rooted) + qs == Resolve(ps, rooted);
      ResolveTwice(ps, rooted);
    } else {
      var front := qs[..|qs| - 1];
      ResolveConcat(ps, front, rooted);
      assert (ps + qs)[..|ps + qs| - 1] == ps + front;
      assert (Resolve(ps, rooted) + qs)[..|Resolve(ps, rooted) + qs| - 1] == Resolve(ps, rooted) + front;
    }
  }

  lemma {:induction false} ResolveTwice(ps: seq<string>, rooted: bool)
    ensures Resolve(Resolve(ps, rooted), rooted) == Resolve(ps, rooted)
  {
    if ps != [] {
      var stack := Resolve(ps[..|ps| - 1], rooted);
      ResolveTwice(ps[..|ps| - 1], rooted);
      var r := Resolve(ps, rooted);
      if stack != [] && r == stack[..|stack| - 1] {
        ResolvedPrefix(ps[..|ps| - 1], rooted, |stack| - 1);
      } else if r != [] {
        assert r[..|r| - 1] == stack || r == [".."];
        if r == [".."] { assert r[..0] == []; }
      }
    }
  }

  /** What comes before a place in a resolved path is resolved. */
  lemma {:induction false} ResolvedPrefix(ps: seq<string>, rooted: bool, n: nat)
    requires n <= |Resolve(ps, rooted)|
    ensures Resolve(Resolve(ps, rooted)[..n], rooted) == Resolve(ps, rooted)[..n]
  {
    if n > 0 {
      ResolvedPrefix(ps, rooted, n - 1);
      UpsFirst(ps, rooted);
      var r := Resolve(ps, rooted);
      assert r[..n][..n - 1] == r[..n - 1];
      if r[n - 1] == ".." && n > 1 { assert r[n - 2] == ".."; }
    }
  }

  ghost predicate GoesUpFirst(ps: seq<string>) {
    forall i, j :: 0 <= i < j < |ps| && ps[j] == ".." ==> ps[i] == ".."
  }

  /** Of a resolved path only the front can go up, and not at all at a root. */
  lemma {:induction false} UpsFirst(ps: seq<string>, rooted: bool)
    ensures GoesUpFirst(Resolve(ps, rooted)) && (rooted ==> ".." !in Resolve(ps, rooted))
  {
    if ps != [] {
      var n := |ps| - 1;
      var stack, r := Resolve(ps[..n], rooted), Resolve(ps, rooted);
      UpsFirst(ps[..n], rooted);
      assert r == stack + [ps[n]] || (stack != [] && r == stack[..|stack| - 1]) || |r| <= 1;
      if r == stack + [ps[n]] { LastGoesUp(stack, ps[n]); }
    }
  }

  lemma LastGoesUp(ps: seq<string>, x: string)
    requires GoesUpFirst(ps) && (x == ".." ==> ps == [] || ps[|ps| - 1] == "..")
    ensures GoesUpFirst(ps + [x])
  {
  }

  /** `..` takes away the component before it. */
  lemma ResolveUp(ps: seq<string>, x: string, qs: seq<string>, rooted: bool)
    requires x != ".."
    ensures Resolve(ps + [x, ".."] + qs, rooted) == Resolve(ps + qs, rooted)
  {
    var up := ps + [x, ".."];
    assert up[..|up| - 1] == ps + [x] && (ps + [x])[..|ps|] == ps;
    assert Resolve(ps + [x], rooted) == Resolve(ps, rooted) + [x];
    assert Resolve(up, rooted) == Resolve(ps, rooted);
    ResolveConcat(up, qs, rooted);
    ResolveConcat(ps, qs, rooted);
  }

  /** At a root there is nothing to take away. */
  lemma ResolveUpAtRoot(qs: seq<string>)
    ensures Resolve([".."] + qs, true) == Resolve(qs, true)
  {
    assert [".."][..0] == [] && Resolve([".."], true) == [];
    ResolveConcat([".."], qs, true);
    assert [] + qs == qs;
  }

  /** `ntpath.normpath` */
  function NtNormPath(path: string): string {
    var (drive, rest) := SplitDrive(Slashes(path));
    var prefix := if rest != "" && rest[0] == '\\' then drive + "\\" else drive;
    var ps := Resolve(Components('\\', false, rest), prefix != "" && prefix[|prefix| - 1] == '\\');
    if prefix == "" && ps == [] then "." else prefix + Path('\\', ps)
  }

  // ----- Other paths

  /** `os.path.normpath` on a system with `/` */
  function PosixNormPath(path: string): string {
    var root := if path == "" || path[0] != '/' then ""
                else if |path| >= 2 && path[1] == '/' && (|path| == 2 || path[2] != '/') then "//"
                else "/";
    var ps := Resolve(Components('/', false, path), root != "");
    if root == "" && ps == [] then "." else root + Path('/', ps)
  }

  /** `os.path.join(cwd, value)`, which `os.path.abspath` normalises. */
  function UnderCwd(cwd: string, value: string): string {
    if value != "" && value[0] == '/' then value
    else if cwd == "" || cwd[|cwd| - 1] == '/' then cwd + value
    else cwd + "/" + value
  }

  // ----- Keys

  /** The display path and key of a path in Windows form. */
  function NormalizeWindows(fold: char -> string, value: string): Result<(string, string), string> {
    var short := NtNormPath(Slashes(value));
    var (drive, tail) := SplitDrive(short);
    var display := if drive != "" && tail == "" then drive + "\\" else short;
    if !StartsUnc(display) then Ok((display, FoldText(fold, display)))
    else
      var ps := Components('\\', true, display[2..]);
      if |ps| < 2 then Err("UNC path must include a server and share")
      else Ok(("\\\\" + Path('\\', ps), FoldText(fold, "\\\\" + Path('\\', ps))))
  }

  /** The display path and key of any other path. */
  function NormalizeNative(host: Host, fold: char -> string, value: string): (string, string) {
    match host
    case Posix(cwd) =>
      var display := PosixNormPath(PosixNormPath(UnderCwd(cwd, value)));
      (display, FoldText(fold, display))
    case Windows(absolute, lower) =>
      var display := NtNormPath(absolute(value));
      (display, FoldText(fold, FoldText(lower, Slashes(display))))
  }

  /** `normalize_source_path` */
  function Normalize(host: Host, fold: char -> string, path: string): Result<(string, string), string> {
    var value := Text.Strip(path);
    if value == "" then Err("Source path cannot be empty")
    else if IsWindowsPath(value) then NormalizeWindows(fold, value)
    else Ok(NormalizeNative(host, fold, value))
  }

  /** `pathlib.Path(key).parts` */
  function LibraryParts(host: Host, key: string): seq<string> {
    match host
    case Posix(_) => (if key != "" && key[0] == '/' then ["/"] else []) + Components('/', false, key)
    case Windows(_, _) =>
      var (drive, tail) := SplitDrive(Slashes(key));
      var anchor := if tail != "" && tail[0] == '\\' then drive + "\\" else drive;
      (if anchor != "" then [anchor] else []) + Components('\\', false, tail)
  }

  /** `_parts` */
  function Parts(host: Host, fold: char -> string, key: string): seq<string> {
    if IsWindowsPath(key) then
      var (drive, tail) := SplitDrive(key);
      [FoldText(fold, drive)] + Components('\\', true, Slashes(tail))
    else LibraryParts(host, key)
  }

  // ----- Normal forms

  ghost predicate NormalDrive(key: string) {
    |key| >= 3 && DriveQualified(key) && key[2] == '\\' && Tight('\\', key[3..])
  }

  ghost predicate NormalUnc(key: string) {
    StartsUnc(key) && Tight('\\', key[2..]) && '\\' in key[2..]
  }

  ghost predicate NormalPosix(key: string) {
    key != "" && key[0] == '/' && Tight('/', key[1..]) && "." !in Components('/', true, key[1..])
  }

  /** What a key looks like: folded, no empty component, and a root of one of three kinds. */
  ghost predicate NormalKey(host: Host, fold: char -> string, key: string) {
    && Folded(fold, key)
    && (('/' !in key && (NormalDrive(key) || NormalUnc(key))) || (host.Posix? && NormalPosix(key)))
  }

  /** The key with the given components. */
  function Rebuild(ps: seq<string>): string
    requires ps != []
  {
    if ps[0] == "/" then "/" + Path('/', ps[1..])
    else if |ps| == 1 && StartsUnc(ps[0]) then ps[0]
    else ps[0] + "\\" + Path('\\', ps[1..])
  }

  /** Without a component `.` it makes no difference whether it would be kept. */
  lemma {:induction false} NoDots(sep: char, s: string)
    requires "." !in Components(sep, true, s)
    ensures Components(sep, false, s) == Components(sep, true, s)
    decreases |s|
  {
    var e := Separator(sep, s, 0);
    if e < |s| {
      var rest := Components(sep, true, s[e + 1..]);
      assert forall x :: x in rest ==> x in Components(sep, true, s);
      NoDots(sep, s[e + 1..]);
    }
    assert IsPart(sep, true, s[..e]) ==> s[..e] in Components(sep, true, s);
  }

  lemma FoldedPrefix(fold: char -> string, s: string, n: nat)
    requires Folded(fold, s) && n <= |s|
    ensures FoldText(fold, s[..n]) == s[..n]
  {
    FoldOfFolded(fold, s[..n]);
  }

  lemma DriveParts(host: Host, fold: char -> string, key: string)
    requires Folded(fold, key) && '/' !in key && NormalDrive(key)
    ensures Parts(host, fold, key) == [key[..2]] + Components('\\', true, key[3..])
  {
    SlashesKeep(key);
    SlashesKeep(key[2..]);
    FoldedPrefix(fold, key, 2);
    assert SplitDrive(key) == (key[..2], key[2..]);
    SeparatorFirst('\\', true, key[2..]);
    assert key[2..][1..] == key[3..];
  }

  lemma DriveRebuilds(host: Host, fold: char -> string, key: string)
    requires Folded(fold, key) && '/' !in key && NormalDrive(key)
    ensures var ps := Parts(host, fold, key);
            ps != [] && Rebuild(ps) == key
  {
    DriveParts(host, fold, key);
    PathOfComponents('\\', key[3..]);
    var ps := Parts(host, fold, key);
    assert ps[1..] == Components('\\', true, key[3..]) && ps[0] == key[..2];
    assert key == key[..2] + "\\" + key[3..];
  }

  /** What follows the share and a separator. */
  function UncRest(key: string): string
    requires StartsUnc(key)
  {
    if UncDrive(key) < |key| then key[UncDrive(key) + 1..] else ""
  }

  lemma UncTail(key: string, j: nat)
    requires NormalUnc(key) && j == UncDrive(key)
    ensures Components('\\', true, key[j..]) == Components('\\', true, UncRest(key)) && Tight('\\', UncRest(key))
    ensures UncRest(key) == "" <==> j == |key|
    ensures j < |key| ==> key == key[..j] + "\\" + UncRest(key)
  {
    if j < |key| {
      SeparatorFirst('\\', true, key[j..]);
      TightRest('\\', key[2..], j - 2);
      assert key[j..][1..] == key[j + 1..] == key[2..][j - 1..];
    } else {
      assert key[j..] == "";
    }
  }

  lemma UncParts(host: Host, fold: char -> string, key: string)
    requires Folded(fold, key) && '/' !in key && NormalUnc(key)
    ensures Parts(host, fold, key) == [key[..UncDrive(key)]] + Components('\\', true, UncRest(key))
  {
    var j := UncDrive(key);
    SlashesKeep(key);
    SlashesKeep(key[j..]);
    FoldedPrefix(fold, key, j);
    assert SplitDrive(key) == (key[..j], key[j..]);
    UncTail(key, j);
  }

  lemma UncRebuilds(host: Host, fold: char -> string, key: string)
    requires Folded(fold, key) && '/' !in key && NormalUnc(key)
    ensures var ps := Parts(host, fold, key);
            ps != [] && Rebuild(ps) == key
  {
    var j, rest := UncDrive(key), UncRest(key);
    UncParts(host, fold, key);
    UncTail(key, j);
    PathOfComponents('\\', rest);
    hide Components, UncDrive, UncRest, Folded, JoinWith, Tight, Parts;
    var ps := Parts(host, fold, key);
    assert ps[0] == key[..j] && ps[1..] == Components('\\', true, rest) && StartsUnc(ps[0]);
    if j == |key| { assert key[..j] == key; }
  }

  lemma PosixParts(host: Host, fold: char -> string, key: string)
    requires host.Posix? && NormalPosix(key)
    ensures Parts(host, fold, key) == ["/"] + Components('/', true, key[1..])
  {
    assert !IsWindowsPath(key) by {
      assert |key| >= 2 ==> key[1] == key[1..][0];
    }
    SeparatorFirst('/', false, key);
    NoDots('/', key[1..]);
  }

  lemma PosixRebuilds(host: Host, fold: char -> string, key: string)
    requires host.Posix? && NormalPosix(key)
    ensures var ps := Parts(host, fold, key);
            ps != [] && Rebuild(ps) == key
  {
    PosixParts(host, fold, key);
    PathOfComponents('/', key[1..]);
    var ps := Parts(host, fold, key);
    assert ps[1..] == Components('/', true, key[1..]);
    assert key == "/" + key[1..];
  }

  /** The components of a normal key rebuild it. */
  lemma RebuildOfParts(host: Host, fold: char -> string, key: string)
    requires NormalKey(host, fold, key)
    ensures var ps := Parts(host, fold, key);
            ps != [] && Rebuild(ps) == key
  {
    if '/' !in key && NormalDrive(key) {
      DriveRebuilds(host, fold, key);
    } else if '/' !in key && NormalUnc(key) {
      UncRebuilds(host, fold, key);
    } else {
      PosixRebuilds(host, fold, key);
    }
  }

  /** No two normal keys have the same components. */
  lemma PartsInjective(host: Host, fold: char -> string, a: string, b: string)
    requires NormalKey(host, fold, a) && NormalKey(host, fold, b)
    requires Parts(host, fold, a) == Parts(host, fold, b)
    ensures a == b
  {
    RebuildOfParts(host, fold, a);
    RebuildOfParts(host, fold, b);
  }

  // ----- What it means for a key to lie below another

  function SeparatorOf(key: string): char {
    if key != "" && key[0] == '/' then '/' else '\\'
  }

  /** `b` continues `a` at a separator, which is the last character of `a` if that is a root. */
  predicate Below(a: string, b: string) {
    a != "" && |a| < |b| && b[..|a|] == a && (a[|a| - 1] == SeparatorOf(a) || b[|a|] == SeparatorOf(a))
  }

  lemma ConsPrefix<T>(x: T, xs: seq<T>, y: T, ys: seq<T>)
    ensures [x] + xs < [y] + ys <==> x == y && xs < ys
  {
    if [x] + xs < [y] + ys {
      assert ([x] + xs)[0] == x && ([y] + ys)[0] == y;
      assert forall k :: 0 <= k < |xs| ==> xs[k] == ([x] + xs)[k + 1] && ys[k] == ([y] + ys)[k + 1];
    }
  }

  lemma SameRoot(a: string, b: string)
    requires |a| >= 3 && |b| >= 3 && a[2] == b[2]
    ensures a[..2] == b[..2] <==> a[..3] == b[..3]
  {
    assert a[..3] == a[..2] + [a[2]] && b[..3] == b[..2] + [b[2]];
    assert a[..2] == a[..3][..2] && b[..2] == b[..3][..2];
  }

  lemma DriveBelow(host: Host, fold: char -> string, a: string, b: string)
    requires Folded(fold, a) && '/' !in a && NormalDrive(a) && Folded(fold, b) && '/' !in b && NormalDrive(b)
    ensures Parts(host, fold, a) < Parts(host, fold, b) <==> Below(a, b)
  {
    var u, v := a[3..], b[3..];
    assert SeparatorOf(a) == '\\';
    hide Components, Parts, Folded, Below, Continues, Tight, SeparatorOf;
    DriveParts(host, fold, a);
    DriveParts(host, fold, b);
    ConsPrefix(a[..2], Components('\\', true, u), b[..2], Components('\\', true, v));
    TightBelow('\\', u, v);
    RootedBelow('\\', a, b, 3);
    SameRoot(a, b);
  }

  /** Two texts behind the same root: one continues the other exactly when it does behind the root. */
  lemma RootedBelow(sep: char, a: string, b: string, n: nat)
    requires 0 < n <= |a| && n <= |b| && a[n - 1] == sep == SeparatorOf(a) && Tight(sep, a[n..]) && Tight(sep, b[n..])
    ensures Below(a, b) <==> a[..n] == b[..n] && Continues(sep, a[n..], b[n..])
  {
    var u, v := a[n..], b[n..];
    if Below(a, b) {
      assert b[..n] == b[..|a|][..n];
      if u != "" {
        assert u[|u| - 1] == a[|a| - 1];
        assert v[..|u|] == b[..|a|][n..];
      }
    }
    if a[..n] == b[..n] && Continues(sep, u, v) {
      assert a == a[..n] + u && b == b[..n] + v;
      assert b[..|a|] == b[..n] + v[..|u|];
    }
  }

  lemma PosixBelow(host: Host, fold: char -> string, a: string, b: string)
    requires host.Posix? && NormalPosix(a) && NormalPosix(b)
    ensures Parts(host, fold, a) < Parts(host, fold, b) <==> Below(a, b)
  {
    assert SeparatorOf(a) == '/' && a[..1] == "/" && b[..1] == "/";
    hide Components, Parts, Below, Continues, Tight, SeparatorOf;
    PosixParts(host, fold, a);
    PosixParts(host, fold, b);
    ConsPrefix("/", Components('/', true, a[1..]), "/", Components('/', true, b[1..]));
    TightBelow('/', a[1..], b[1..]);
    RootedBelow('/', a, b, 1);
  }

  lemma SeparatorPrefix(sep: char, a: string, b: string, i: nat)
    requires i <= |a| < |b| && b[..|a|] == a && b[|a|] == sep
    ensures Separator(sep, a, i) == Separator(sep, b, i)
  {
    var r, s := Separator(sep, a, i), Separator(sep, b, i);
    assert forall k :: 0 <= k < |a| ==> a[k] == b[k];
    assert s <= |a|;
  }

  /** A share that `b` names in full before it continues `a` is the share of `a`. */
  lemma SameShare(a: string, b: string)
    requires StartsUnc(a) && |a| < |b| && b[..|a|] == a && b[|a|] == '\\' && UncDrive(b) <= |a|
    ensures UncDrive(a) == UncDrive(b)
  {
    assert forall k :: 0 <= k < |a| ==> a[k] == b[k];
    assert DeviceUnc(a) <==> DeviceUnc(b) by {
      assert |a| >= 8 ==> a[..4] == b[..4];
    }
    var start := if DeviceUnc(b) then 8 else 2;
    SeparatorPrefix('\\', a, b, start);
    var i := Separator('\\', b, start);
    assert i < |a|;
    SeparatorPrefix('\\', a, b, i + 1);
  }

  lemma BelowUnc(a: string, b: string)
    requires NormalUnc(a)
    ensures Below(a, b) <==> |a| < |b| && b[..|a|] == a && b[|a|] == '\\'
  {
    assert a[2..][|a[2..]| - 1] == a[|a| - 1];
  }

  lemma UncBelow(host: Host, fold: char -> string, a: string, b: string)
    requires Folded(fold, a) && '/' !in a && NormalUnc(a) && Folded(fold, b) && '/' !in b && NormalUnc(b)
    ensures Parts(host, fold, a) < Parts(host, fold, b) <==> Below(a, b) && UncDrive(b) <= |a|
  {
    hide Components, Parts, Folded, UncDrive, UncRest, Continues, Below, Tight;
    var i, j, u, v := UncDrive(a), UncDrive(b), UncRest(a), UncRest(b);
    UncParts(host, fold, a);
    UncParts(host, fold, b);
    UncTail(a, i);
    UncTail(b, j);
    ConsPrefix(a[..i], Components('\\', true, u), b[..j], Components('\\', true, v));
    TightBelow('\\', u, v);
    BelowUnc(a, b);
    if Below(a, b) && j <= |a| {
      SameShare(a, b);
      ShareContinues(a, b, j);
    }
    if a[..i] == b[..j] && Continues('\\', u, v) {
      ContinuesShare(a, b, j);
    }
  }

  lemma ShareContinues(a: string, b: string, j: nat)
    requires StartsUnc(a) && StartsUnc(b) && j == UncDrive(a) == UncDrive(b) <= |a| < |b|
    requires b[..|a|] == a && b[|a|] == '\\' && (UncRest(b) == "" <==> j == |b|)
    ensures a[..j] == b[..j] && Continues('\\', UncRest(a), UncRest(b))
  {
    var u, v := UncRest(a), UncRest(b);
    assert b[..j] == b[..|a|][..j];
    if j < |a| {
      assert v[..|u|] == b[..|a|][j + 1..];
    }
  }

  lemma ContinuesShare(a: string, b: string, j: nat)
    requires StartsUnc(a) && StartsUnc(b) && j == UncDrive(b) && a[..UncDrive(a)] == b[..j]
    requires UncDrive(a) < |a| ==> UncRest(a) != ""
    requires Continues('\\', UncRest(a), UncRest(b))
    ensures Below(a, b) && j <= |a|
  {
    var i, u, v := UncDrive(a), UncRest(a), UncRest(b);
    assert i == |a[..i]| == |b[..j]| == j;
    assert j < |b|;
    if j < |a| {
      assert a == a[..j] + "\\" + u && b == b[..j] + "\\" + v;
      assert b[..|a|] == a;
    } else {
      assert a[..i] == a && b[..|a|] == b[..j];
    }
  }

  lemma KindsDiffer(host: Host, fold: char -> string, a: string, b: string)
    requires NormalKey(host, fold, a) && NormalKey(host, fold, b)
    requires (a[0] == '/') != (b[0] == '/') || (a[0] == '\\') != (b[0] == '\\')
    ensures !Below(a, b) && !(Parts(host, fold, a) < Parts(host, fold, b))
  {
    if |a| <= |b| { assert b[..|a|][0] == b[0]; }
    FirstCharacter(host, fold, a);
    FirstCharacter(host, fold, b);
  }

  lemma FirstCharacter(host: Host, fold: char -> string, key: string)
    requires NormalKey(host, fold, key)
    ensures var ps := Parts(host, fold, key);
            ps != [] && ps[0] != "" && ps[0][0] == key[0]
  {
    if '/' !in key && NormalDrive(key) {
      DriveParts(host, fold, key);
    } else if '/' !in key && NormalUnc(key) {
      UncParts(host, fold, key);
    } else {
      PosixParts(host, fold, key);
    }
  }

  /**
   * What `is_parent_path` decides on keys in normal form: the child continues the parent at a separator, and
   * the parent names at least the share of the child.
   */
  lemma ParentIsBelow(host: Host, fold: char -> string, a: string, b: string)
    requires NormalKey(host, fold, a) && NormalKey(host, fold, b)
    ensures Parts(host, fold, a) < Parts(host, fold, b) <==>
            Below(a, b) && (StartsUnc(b) ==> UncDrive(b) <= |a|)
  {
    if (a[0] == '/') != (b[0] == '/') || (a[0] == '\\') != (b[0] == '\\') {
      KindsDiffer(host, fold, a, b);
    } else if a[0] == '/' {
      PosixBelow(host, fold, a, b);
    } else if a[0] == '\\' {
      UncBelow(host, fold, a, b);
    } else {
      DriveBelow(host, fold, a, b);
    }
  }

  // ----- Keys that `normalize_source_path` yields

  /** What is assumed of the machine. */
  ghost predicate HostValid(host: Host) {
    match host
    case Posix(cwd) => cwd != "" && cwd[0] == '/' && (|cwd| >= 2 ==> cwd[1] != '/')
    case Windows(absolute, lower) => Folding(lower) && forall v :: IsAbsolute(absolute(v))
  }

  /** A drive with a root, or two separators in front. */
  predicate IsAbsolute(a: string) {
    var s := Slashes(a);
    (|a| >= 3 && DriveQualified(a) && s[2] == '\\') || StartsUnc(s)
  }

  lemma {:induction false} ResolveNothing(ps: seq<string>, rooted: bool)
    requires ".." !in ps
    ensures Resolve(ps, rooted) == ps
  {
    if ps != [] {
      assert ps == ps[..|ps| - 1] + [ps[|ps| - 1]];
      ResolveNothing(ps[..|ps| - 1], rooted);
    }
  }

  lemma ResolvedParts(sep: char, dots: bool, s: string, rooted: bool)
    ensures AreParts(sep, dots, Resolve(Components(sep, dots, s), rooted))
  {
    var ps := Components(sep, dots, s);
    ResolveIs(ps, rooted);
    forall k | 0 <= k < |Resolve(ps, rooted)| ensures IsPart(sep, dots, Resolve(ps, rooted)[k]) {
      assert Resolve(ps, rooted)[k] in ps;
    }
  }

  /** Resolving and joining components brings in no new character but the separator. */
  lemma ResolvedChars(s: string, rooted: bool, c: char)
    requires c !in s && c != '\\'
    ensures c !in Path('\\', Resolve(Components('\\', false, s), rooted))
  {
    var ps := Components('\\', false, s);
    var r := Resolve(ps, rooted);
    ResolveIs(ps, rooted);
    forall k | 0 <= k < |Path('\\', r)| ensures Path('\\', r)[k] != c {
      PathChars('\\', r, k);
      if Path('\\', r)[k] == c {
        var j :| 0 <= j < |r| && c in r[j];
        assert r[j] in r;
        var i :| 0 <= i < |ps| && ps[i] == r[j];
        ComponentsChars('\\', false, s, i, c);
      }
    }
  }

  /** A Windows path with a drive: its normal path. */
  lemma DrivePath(a: string)
    requires DriveQualified(a) && (|a| == 2 || Slashes(a)[2] == '\\')
    ensures var s := Slashes(a);
            var tail := Path('\\', Resolve(Components('\\', false, s[2..]), true));
            NtNormPath(a) == if |a| == 2 then a else a[..2] + "\\" + tail
    ensures var tail := Path('\\', Resolve(Components('\\', false, Slashes(a)[2..]), true));
            Tight('\\', tail) && '/' !in tail
  {
    var s := Slashes(a);
    SlashesKeep(s);
    assert SplitDrive(s) == (s[..2], s[2..]);
    assert s[..2] == a[..2];
    ResolvedParts('\\', false, s[2..], true);
    ResolvedChars(s[2..], true, '/');
    PathIsTight('\\', Resolve(Components('\\', false, s[2..]), true));
    if |a| == 2 {
      assert s[2..] == "" && a[..2] == a;
      assert Components('\\', false, "") == [];
    }
  }

  /** A Windows path with two separators in front keeps them, and has no `/`. */
  lemma UncPath(a: string)
    requires StartsUnc(Slashes(a))
    ensures StartsUnc(NtNormPath(a)) && '/' !in NtNormPath(a)
  {
    var s := Slashes(a);
    SlashesKeep(s);
    var j := UncDrive(s);
    assert SplitDrive(s) == (s[..j], s[j..]);
    var rest := s[j..];
    var prefix := if rest != "" && rest[0] == '\\' then s[..j] + "\\" else s[..j];
    assert prefix[0] == prefix[1] == '\\' && '/' !in prefix;
    ResolvedChars(rest, prefix[|prefix| - 1] == '\\', '/');
  }

  /** Two separators stand next to each other. */
  ghost predicate Doubled(sep: char, s: string) {
    exists k :: 0 <= k < |s| - 1 && s[k] == sep == s[k + 1]
  }

  lemma DoubledAfter(sep: char, h: string, rest: string)
    requires h != "" && (h == [sep] || sep !in h)
    ensures Doubled(sep, h + rest) <==> Doubled(sep, rest) || (h == [sep] && rest != "" && rest[0] == sep)
  {
    var t := h + rest;
    assert forall k :: 0 <= k < |t| ==> t[k] == if k < |h| then h[k] else rest[k - |h|];
    if Doubled(sep, rest) {
      var k :| 0 <= k < |rest| - 1 && rest[k] == sep == rest[k + 1];
      assert t[|h| + k] == sep == t[|h| + k + 1];
    }
    if Doubled(sep, t) {
      var k :| 0 <= k < |t| - 1 && t[k] == sep == t[k + 1];
      if k >= |h| { assert rest[k - |h|] == sep == rest[k - |h| + 1]; }
    }
    if h == [sep] && rest != "" && rest[0] == sep { assert t[0] == sep == t[1]; }
  }

  /** Folding leaves the places of separators as they are. */
  lemma {:induction false} FoldKeepsSeparators(fold: char -> string, sep: char, s: string)
    requires Folding(fold) && sep in "\\/" && s != ""
    ensures var t := FoldText(fold, s);
            && t != "" && (Doubled(sep, t) <==> Doubled(sep, s)) && (sep in t <==> sep in s)
            && (t[0] == sep <==> s[0] == sep) && (t[|t| - 1] == sep <==> s[|s| - 1] == sep)
  {
    var h, rest := fold(s[0]), FoldText(fold, s[1..]);
    assert s == [s[0]] + s[1..];
    assert fold(sep) == [Lower(sep)];
    assert (h == [sep] || sep !in h) && (h == [sep] <==> s[0] == sep) && h != "";
    hide Folding, Doubled;
    DoubledAfter(sep, h, rest);
    DoubledAfter(sep, [s[0]], s[1..]);
    if s[1..] != "" {
      FoldKeepsSeparators(fold, sep, s[1..]);
    }
  }

  lemma FoldKeepsTight(fold: char -> string, sep: char, s: string)
    requires Folding(fold) && sep in "\\/"
    ensures Tight(sep, s) <==> Tight(sep, FoldText(fold, s))
    ensures sep in s <==> sep in FoldText(fold, s)
  {
    if s != "" { FoldKeepsSeparators(fold, sep, s); }
    assert forall u: string :: Tight(sep, u) <==> (u != "" ==> u[0] != sep && u[|u| - 1] != sep) && !Doubled(sep, u);
  }

  lemma DriveKey(fold: char -> string, drive: string, tail: string)
    requires Folding(fold) && |drive| == 2 && DriveQualified(drive) && Tight('\\', tail) && '/' !in tail
    ensures var key := FoldText(fold, drive + "\\" + tail);
            Folded(fold, key) && '/' !in key && NormalDrive(key)
  {
    var root := drive + "\\";
    var key := FoldText(fold, root + tail);
    FoldTextIs(fold, root + tail);
    FoldConcat(fold, root, tail);
    FoldKeepsTight(fold, '\\', tail);
    assert FoldText(fold, root) == [Lower(drive[0]), ':', '\\'] by {
      assert root == [drive[0]] + ([':'] + ['\\']);
      FoldConcat(fold, [drive[0]], [':'] + ['\\']);
      FoldConcat(fold, [':'], ['\\']);
      assert fold(drive[0]) == [Lower(drive[0])] && fold(':') == [Lower(':')] && fold('\\') == [Lower('\\')];
    }
    assert key[3..] == FoldText(fold, tail);
    assert '/' !in root + tail;
  }

  lemma UncKey(fold: char -> string, display: string)
    requires Folding(fold) && StartsUnc(display) && '/' !in display
    ensures var key := FoldText(fold, display);
            && Folded(fold, key) && '/' !in key && StartsUnc(key)
            && (NormalUnc(key) <==> NormalUnc(display))
  {
    var rest := display[2..];
    var key := FoldText(fold, display);
    FoldTextIs(fold, display);
    assert display == "\\\\" + rest;
    FoldConcat(fold, "\\\\", rest);
    assert FoldText(fold, "\\\\") == "\\\\" by {
      FoldConcat(fold, "\\", "\\");
      assert fold('\\') == [Lower('\\')];
    }
    assert key[2..] == FoldText(fold, rest);
    FoldKeepsTight(fold, '\\', rest);
  }

  lemma WindowsForm(value: string)
    requires IsWindowsPath(value) && !Text.IsSpace(value[|value| - 1])
    ensures var s := Slashes(value);
            StartsUnc(s) || (DriveQualified(s) && (|s| == 2 || s[2] == '\\'))
  {
    assert |value| == 3 ==> value[2] != '\n';
  }

  lemma DriveKeyNormal(fold: char -> string, s: string)
    requires Folding(fold) && s == Slashes(s) && DriveQualified(s) && (|s| == 2 || s[2] == '\\')
    ensures var r := NormalizeWindows(fold, s);
            r.Ok? && Folded(fold, r.value.1) && '/' !in r.value.1 && NormalDrive(r.value.1)
  {
    var tail := Path('\\', Resolve(Components('\\', false, s[2..]), true));
    DrivePath(s);
    DriveKey(fold, s[..2], tail);
    DriveDisplay(s, s[..2], tail);
  }

  lemma UncKeyNormal(fold: char -> string, s: string)
    requires Folding(fold) && s == Slashes(s) && StartsUnc(s) && NormalizeWindows(fold, s).Ok?
    ensures var key := NormalizeWindows(fold, s).value.1;
            Folded(fold, key) && '/' !in key && NormalUnc(key)
  {
    UncPath(s);
    var short := NtNormPath(s);
    var (drive, tail) := SplitDrive(short);
    var display := if drive != "" && tail == "" then drive + "\\" else short;
    assert StartsUnc(display) && '/' !in display;
    UncComponentsKey(fold, display);
  }

  /** Every path in Windows form that is accepted has a normal key. */
  lemma WindowsKeyNormal(host: Host, fold: char -> string, value: string)
    requires Folding(fold) && IsWindowsPath(value) && !Text.IsSpace(value[|value| - 1])
    requires NormalizeWindows(fold, value).Ok?
    ensures NormalKey(host, fold, NormalizeWindows(fold, value).value.1)
  {
    var s := Slashes(value);
    SlashesKeep(s);
    WindowsForm(value);
    assert NormalizeWindows(fold, value) == NormalizeWindows(fold, s);
    hide NormalizeWindows, Folding, NormalDrive, NormalUnc, IsWindowsPath;
    if StartsUnc(s) {
      UncKeyNormal(fold, s);
    } else {
      DriveKeyNormal(fold, s);
    }
  }

  lemma DriveDisplay(s: string, drive: string, tail: string)
    requires s == Slashes(s) && DriveQualified(s) && drive == s[..2] && Tight('\\', tail)
    requires NtNormPath(s) == if |s| == 2 then s else drive + "\\" + tail
    requires |s| == 2 ==> tail == ""
    ensures var (d, t) := SplitDrive(NtNormPath(s));
            && (if d != "" && t == "" then d + "\\" else NtNormPath(s)) == drive + "\\" + tail
            && !StartsUnc(drive + "\\" + tail)
  {
    var short := NtNormPath(s);
    assert Slashes(short)[0] == s[0] && Slashes(short)[1] == ':';
    assert SplitDrive(short) == (short[..2], short[2..]);
    assert drive + "\\" + "" == drive + "\\";
  }

  lemma UncComponentsKey(fold: char -> string, display: string)
    requires Folding(fold) && StartsUnc(display) && '/' !in display
    requires |Components('\\', true, display[2..])| >= 2
    ensures var key := FoldText(fold, "\\\\" + Path('\\', Components('\\', true, display[2..])));
            Folded(fold, key) && '/' !in key && NormalUnc(key)
  {
    var ps := Components('\\', true, display[2..]);
    var path := Path('\\', ps);
    PathIsTight('\\', ps);
    forall k | 0 <= k < |path| ensures path[k] != '/' {
      PathChars('\\', ps, k);
      if path[k] == '/' {
        var j :| 0 <= j < |ps| && '/' in ps[j];
        ComponentsChars('\\', true, display[2..], j, '/');
      }
    }
    assert ("\\\\" + path)[2..] == path;
    UncKey(fold, "\\\\" + path);
  }

  /** On a system with `/` every other path has a normal key. */
  lemma PosixKeyNormal(host: Host, fold: char -> string, value: string)
    requires Folding(fold) && host.Posix? && HostValid(host) && value != "" && !IsWindowsPath(value)
    ensures NormalKey(host, fold, NormalizeNative(host, fold, value).1)
  {
    var path := UnderCwd(host.cwd, value);
    assert path[0] == '/' && (|path| >= 2 ==> path[1] != '/');
    var ps := Resolve(Components('/', false, path), true);
    ResolvedParts('/', false, path, true);
    ResolveIs(Components('/', false, path), true);
    RootedPath(ps);
    PosixKey(fold, ps);
  }

  /**
   * The display path is rooted and has the components of the given path, behind those of the working directory unless
   * it is absolute, with every `..` resolved; the key is the display path folded.
   */
  lemma PosixKeyIs(host: Host, fold: char -> string, value: string)
    requires host.Posix? && HostValid(host) && value != "" && !IsWindowsPath(value)
    ensures var given := (if value[0] == '/' then [] else Components('/', false, host.cwd)) + Components('/', false, value);
            var display := "/" + Path('/', Resolve(given, true));
            NormalizeNative(host, fold, value) == (display, FoldText(fold, display))
  {
    var path := UnderCwd(host.cwd, value);
    assert path[0] == '/' && (|path| >= 2 ==> path[1] != '/');
    hide Components, Resolve, Path, UnderCwd, FoldText, PosixNormPath, HostValid, IsWindowsPath;
    UnderCwdParts(host.cwd, value);
    PosixNormTwice(path);
  }

  lemma PosixNormTwice(path: string)
    requires path != "" && path[0] == '/' && (|path| >= 2 ==> path[1] != '/')
    ensures PosixNormPath(PosixNormPath(path)) == "/" + Path('/', Resolve(Components('/', false, path), true))
  {
    assert PosixNormPath(path) == "/" + Path('/', Resolve(Components('/', false, path), true));
    hide Components, Resolve, Path, PosixNormPath;
    ResolvedParts('/', false, path, true);
    ResolveIs(Components('/', false, path), true);
    RootedPath(Resolve(Components('/', false, path), true));
  }

  lemma UnderCwdParts(cwd: string, value: string)
    requires cwd != "" && value != ""
    ensures Components('/', false, UnderCwd(cwd, value)) ==
            (if value[0] == '/' then [] else Components('/', false, cwd)) + Components('/', false, value)
  {
    hide Components;
    if value[0] != '/' {
      var n := |cwd| - 1;
      if cwd[n] == '/' {
        var front := cwd[..n];
        assert cwd == front + ['/'] + "" && cwd + value == front + ['/'] + value;
        ComponentsConcat('/', false, front, "");
        ComponentsConcat('/', false, front, value);
        ComponentsBehind('/', false, "", "");
      } else {
        ComponentsConcat('/', false, cwd, value);
        assert cwd + "/" + value == cwd + ['/'] + value;
      }
    }
  }

  /** A path on a drive: the components behind the drive, with every `..` resolved. */
  lemma DriveKeyIs(fold: char -> string, value: string)
    requires var s := Slashes(value); DriveQualified(s) && (|s| == 2 || s[2] == '\\')
    ensures var s := Slashes(value);
            var display := s[..2] + "\\" + Path('\\', Resolve(Components('\\', false, s[2..]), true));
            NormalizeWindows(fold, value) == Ok((display, FoldText(fold, display)))
  {
    var s := Slashes(value);
    SlashesKeep(s);
    var tail := Path('\\', Resolve(Components('\\', false, s[2..]), true));
    DrivePath(s);
    if |s| == 2 { NothingBehind(s); }
    DriveDisplay(s, s[..2], tail);
  }

  lemma NothingBehind(s: string)
    requires |s| == 2
    ensures Path('\\', Resolve(Components('\\', false, s[2..]), true)) == ""
  {
    assert s[2..] == "" && Components('\\', false, "") == [];
  }

  /** A rooted path in normal form is its own normal path. */
  lemma RootedPath(ps: seq<string>)
    requires AreParts('/', false, ps) && ".." !in ps
    ensures PosixNormPath("/" + Path('/', ps)) == "/" + Path('/', ps)
  {
    var path := "/" + Path('/', ps);
    PathIsTight('/', ps);
    assert |path| >= 2 ==> path[1] == Path('/', ps)[0];
    SeparatorFirst('/', false, path);
    assert path[1..] == Path('/', ps);
    ComponentsOfPath('/', false, ps);
    ResolveNothing(ps, true);
  }

  lemma PosixKey(fold: char -> string, ps: seq<string>)
    requires Folding(fold) && AreParts('/', false, ps)
    ensures var key := FoldText(fold, "/" + Path('/', ps));
            Folded(fold, key) && NormalPosix(key)
  {
    var path := Path('/', ps);
    var key := FoldText(fold, "/" + path);
    FoldTextIs(fold, "/" + path);
    FoldConcat(fold, "/", path);
    assert FoldText(fold, "/") == "/" by { assert fold('/') == [Lower('/')]; }
    assert key[1..] == FoldText(fold, path);
    FoldPath(fold, '/', ps);
    var qs := FoldParts(fold, ps);
    forall k | 0 <= k < |qs| ensures IsPart('/', true, qs[k]) && qs[k] != "." {
      FoldedPart(fold, '/', false, ps[k]);
    }
    ComponentsOfPath('/', true, qs);
    PathIsTight('/', qs);
  }

  lemma TightJoin(sep: char, x: string, y: string)
    requires x != "" && Tight(sep, y)
    ensures Tight(sep, x + [sep] + y) <==> Tight(sep, x) && y != ""
  {
    var s := x + [sep] + y;
    assert forall k :: 0 <= k < |s| ==> s[k] == if k < |x| then x[k] else if k == |x| then sep else y[k - |x| - 1];
    if Tight(sep, s) {
      forall k | 0 <= k < |x| - 1 ensures x[k] != sep || x[k + 1] != sep {
        assert s[k] == x[k] && s[k + 1] == x[k + 1];
      }
      assert s[|x| - 1] == x[|x| - 1] && s[|x|] == sep;
    }
  }

  /** `a` names a server and a share, and with a separator behind them also something below the share. */
  ghost predicate BelowShareRoot(a: string)
    requires StartsUnc(Slashes(a))
  {
    var s := Slashes(a);
    var j := UncDrive(s);
    && Tight('\\', s[2..j]) && '\\' in s[2..j]
    && (j == |s| || Resolve(Components('\\', false, s[j..]), true) != [])
  }

  lemma UncNormPath(a: string)
    requires StartsUnc(Slashes(a))
    ensures var s := Slashes(a);
            var j := UncDrive(s);
            && (j == |s| ==> NtNormPath(a) == s)
            && (j < |s| ==> NtNormPath(a) == s[..j] + "\\" + Path('\\', Resolve(Components('\\', false, s[j..]), true)))
  {
    var s := Slashes(a);
    SlashesKeep(s);
    var j := UncDrive(s);
    assert SplitDrive(s) == (s[..j], s[j..]);
    if j == |s| {
      assert s[..j] == s && s[j..] == "";
      assert Components('\\', false, "") == [];
    } else {
      var prefix := s[..j] + "\\";
      assert s[j..][0] == '\\' && prefix[|prefix| - 1] == '\\';
    }
  }

  /** Behind a separator the server is at least followed by one. */
  lemma ServerAndShare(s: string)
    requires StartsUnc(s) && UncDrive(s) < |s|
    ensures '\\' in s[2..UncDrive(s)]
  {
    var i := Separator('\\', s, if DeviceUnc(s) then 8 else 2);
    assert s[2..UncDrive(s)][i - 2] == '\\';
  }

  lemma BehindShare(drive: string, path: string)
    requires StartsUnc(drive) && '\\' in drive[2..] && Tight('\\', path)
    ensures NormalUnc(drive + "\\" + path) <==> Tight('\\', drive[2..]) && path != ""
  {
    var whole := drive + "\\" + path;
    TightJoin('\\', drive[2..], path);
    assert whole[2..] == drive[2..] + ['\\'] + path;
    assert '\\' in drive[2..] + ['\\'] + path;
  }

  /** A share keeps its normal form when it is made absolute, unless the path is the root of the share with a separator. */
  lemma UncNormal(a: string)
    requires StartsUnc(Slashes(a))
    ensures NormalUnc(NtNormPath(a)) <==> BelowShareRoot(a)
  {
    var s := Slashes(a);
    var j := UncDrive(s);
    UncNormPath(a);
    if j < |s| {
      ServerAndShare(s);
      var r := Resolve(Components('\\', false, s[j..]), true);
      ResolvedParts('\\', false, s[j..], true);
      PathIsTight('\\', r);
      hide Components, Resolve, NtNormPath, UncDrive, Path, NormalUnc, Tight;
      assert s[..j][2..] == s[2..j];
      BehindShare(s[..j], Path('\\', r));
    } else {
      hide Components, Resolve, NtNormPath, UncDrive, Path;
      assert s[2..j] == s[2..];
    }
  }

  /** On Windows any other path has a normal key, unless the system makes it the root of a share with a separator. */
  lemma NativeKeyNormal(host: Host, fold: char -> string, value: string)
    requires Folding(fold) && host.Windows? && HostValid(host)
    ensures var a := host.absolute(value);
            NormalKey(host, fold, NormalizeNative(host, fold, value).1) <==>
              DriveQualified(a) || (StartsUnc(Slashes(a)) && BelowShareRoot(a))
  {
    var a := host.absolute(value);
    assert IsAbsolute(a);
    if StartsUnc(Slashes(a)) {
      hide BelowShareRoot;
      UncNormal(a);
      assert Slashes(a)[0] == '\\' && !DriveQualified(a);
      NativeUnc(host, fold, value);
    } else {
      NativeDrive(host, fold, value);
    }
  }

  lemma NativeUnc(host: Host, fold: char -> string, value: string)
    requires Folding(fold) && host.Windows? && HostValid(host) && StartsUnc(Slashes(host.absolute(value)))
    ensures NormalKey(host, fold, NormalizeNative(host, fold, value).1) <==> NormalUnc(NtNormPath(host.absolute(value)))
  {
    var display := NtNormPath(host.absolute(value));
    UncPath(host.absolute(value));
    SlashesKeep(display);
    UncKey(host.lower, display);
    UncKey(fold, FoldText(host.lower, display));
  }

  lemma NativeDrive(host: Host, fold: char -> string, value: string)
    requires Folding(fold) && host.Windows? && HostValid(host) && !StartsUnc(Slashes(host.absolute(value)))
    ensures DriveQualified(host.absolute(value)) && NormalKey(host, fold, NormalizeNative(host, fold, value).1)
  {
    var a := host.absolute(value);
    assert IsAbsolute(a);
    var s, display := Slashes(a), NtNormPath(a);
    var tail := Path('\\', Resolve(Components('\\', false, s[2..]), true));
    DrivePath(a);
    SlashesKeep(display);
    DriveKey(host.lower, a[..2], tail);
    var low := FoldText(host.lower, display);
    assert low == low[..2] + "\\" + low[3..];
    DriveKey(fold, low[..2], low[3..]);
  }

  lemma StripLast(path: string)
    requires Text.Strip(path) != ""
    ensures !Text.IsSpace(Text.Strip(path)[|Text.Strip(path)| - 1])
  {
  }

  /** Unless Windows itself makes the path absolute and comes to the root of a share. */
  ghost predicate KeepsForm(host: Host, value: string) {
    match host
    case Posix(_) => true
    case Windows(absolute, _) =>
      var a := absolute(value);
      IsWindowsPath(value) || DriveQualified(a) || (StartsUnc(Slashes(a)) && BelowShareRoot(a))
  }

  /** Exactly when an accepted path has a normal key. */
  lemma KeyNormal(host: Host, fold: char -> string, path: string)
    requires Folding(fold) && HostValid(host) && Normalize(host, fold, path).Ok?
    ensures NormalKey(host, fold, Normalize(host, fold, path).value.1) <==> KeepsForm(host, Text.Strip(path))
  {
    var value := Text.Strip(path);
    hide Text.Strip, Text.Trim, Text.IsSpace, NormalizeWindows, NormalizeNative, NormalKey, Folding, IsWindowsPath,
      HostValid, BelowShareRoot, StartsUnc, DriveQualified;
    if IsWindowsPath(value) {
      StripLast(path);
      WindowsKeyNormal(host, fold, value);
    } else if host.Posix? {
      PosixKeyNormal(host, fold, value);
    } else {
      NativeKeyNormal(host, fold, value);
    }
  }
}
