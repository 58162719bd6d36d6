/** The configured sources as path keys, none of which may lie inside another. */
module Sources {
  import opened Basics
  import opened CaseFolding
  import opened SourcePaths
  import opened Wrappers

  import Paths
  import Text

  /** A stored source; `key` is its normalised path. */
  datatype Row = Row(id: nat, path: string, key: string, title: string, enabled: bool, recursive: bool)

  /** How a row relates to a new path. */
  datatype Relation = Duplicate | Covered | Subsumes

  /** `NotUnique` is what the database raises for a second row of the same key. */
  datatype SourceError =
    | Invalid(detail: string)
    | Overlap(relation: Relation, existing: nat)
    | UnknownSource(id: nat)
    | NotUnique

  /** The machine, the folding tables, and the default title of a display path. */
  datatype Rules = Rules(host: Host, fold: char -> string, title: string -> string) {

    ghost predicate Valid() {
      Folding(fold) && HostValid(host)
    }
  }

  function PartsOf(rules: Rules, key: string): seq<string> {
    Parts(rules.host, rules.fold, key)
  }

  ghost predicate IsNormal(rules: Rules, key: string) {
    NormalKey(rules.host, rules.fold, key)
  }

  /** `is_parent_path` */
  predicate IsParent(rules: Rules, parent: string, child: string) {
    PartsOf(rules, parent) < PartsOf(rules, child)
  }

  function RelationOf(rules: Rules, existing: string, key: string): Option<Relation> {
    if existing == key then Some(Duplicate)
    else if IsParent(rules, existing, key) then Some(Covered)
    else if IsParent(rules, key, existing) then Some(Subsumes)
    else None
  }

  ghost predicate Antichain(rules: Rules, rows: seq<Row>) {
    forall i, j :: 0 <= i < j < |rows| ==> RelationOf(rules, rows[i].key, rows[j].key) == None
  }

  ghost predicate UniqueIds(rows: seq<Row>) {
    forall i, j :: 0 <= i < j < |rows| ==> rows[i].id != rows[j].id
  }

  ghost predicate UniqueKeys(rows: seq<Row>) {
    forall i, j :: 0 <= i < j < |rows| ==> rows[i].key != rows[j].key
  }

  /** Relatedness does not depend on the side it is seen from. */
  lemma RelatedBothWays(rules: Rules, a: string, b: string)
    ensures RelationOf(rules, a, b) == None <==> RelationOf(rules, b, a) == None
  {
  }

  lemma PrefixesNested(a: seq<string>, b: seq<string>, c: seq<string>)
    requires a <= c && b <= c
    ensures a < b || b < a || a == b
  {
    if |a| <= |b| {
      assert a == c[..|a|] && b == c[..|b|] && b[..|a|] == c[..|a|];
    } else {
      assert a == c[..|a|] && b == c[..|b|] && a[..|b|] == c[..|b|];
    }
  }

  predicate Considered(row: Row, excluded: Option<nat>) {
    excluded.None? || row.id != excluded.value
  }

  predicate HitBy(rules: Rules, row: Row, key: string, excluded: Option<nat>, relation: Relation) {
    Considered(row, excluded) && RelationOf(rules, row.key, key) == Some(relation)
  }

  predicate Unrelated(rules: Rules, row: Row, key: string, excluded: Option<nat>) {
    Considered(row, excluded) ==> RelationOf(rules, row.key, key) == None
  }

  /** The first related row decides. */
  ghost predicate IsVerdict(rules: Rules, rows: seq<Row>, key: string, excluded: Option<nat>, r: Option<(Row, Relation)>) {
    match r
    case None => forall k :: 0 <= k < |rows| ==> Unrelated(rules, rows[k], key, excluded)
    case Some((row, relation)) =>
      exists i :: 0 <= i < |rows| && rows[i] == row && HitBy(rules, row, key, excluded, relation)
        && forall k :: 0 <= k < i ==> Unrelated(rules, rows[k], key, excluded)
  }

  ghost predicate HasKey(rows: seq<Row>, key: string, excluded: Option<nat>) {
    exists row :: row in rows && Considered(row, excluded) && row.key == key
  }

  ghost predicate AllUnrelated(rules: Rules, rows: seq<Row>, key: string, excluded: Option<nat>) {
    forall row :: row in rows ==> Unrelated(rules, row, key, excluded)
  }

  /** There is one verdict on a list of rows. */
  lemma VerdictUnique(rules: Rules, rows: seq<Row>, key: string, excluded: Option<nat>,
                      r: Option<(Row, Relation)>, s: Option<(Row, Relation)>)
    requires IsVerdict(rules, rows, key, excluded, r) && IsVerdict(rules, rows, key, excluded, s)
    ensures r == s
  {
    hide RelationOf;
    if r.Some? {
      var i :| 0 <= i < |rows| && rows[i] == r.value.0 && HitBy(rules, rows[i], key, excluded, r.value.1)
               && forall k :: 0 <= k < i ==> Unrelated(rules, rows[k], key, excluded);
      assert !Unrelated(rules, rows[i], key, excluded);
    }
    if s.Some? {
      var j :| 0 <= j < |rows| && rows[j] == s.value.0 && HitBy(rules, rows[j], key, excluded, s.value.1)
               && forall k :: 0 <= k < j ==> Unrelated(rules, rows[k], key, excluded);
      assert !Unrelated(rules, rows[j], key, excluded);
    }
  }

  /** `find_overlap`, on the rows in the order in which the query yields them. */
  method FindOverlap(rules: Rules, rows: seq<Row>, key: string, excluded: Option<nat>) returns (r: Option<(Row, Relation)>)
    ensures IsVerdict(rules, rows, key, excluded, r)
  {
    hide RelationOf, Considered;
    for i := 0 to |rows|
      invariant forall k :: 0 <= k < i ==> Unrelated(rules, rows[k], key, excluded)
    {
      var relation := RelationOf(rules, rows[i].key, key);
      if Considered(rows[i], excluded) && relation.Some? {
        assert HitBy(rules, rows[i], key, excluded, relation.value);
        return Some((rows[i], relation.value));
      }
    }
    return None;
  }

  /** All rows related to the key are related to it in the same way. */
  ghost predicate Agree(rules: Rules, rows: seq<Row>, key: string, excluded: Option<nat>) {
    forall a, b, x, y ::
      (a in rows && b in rows && HitBy(rules, a, key, excluded, x) && HitBy(rules, b, key, excluded, y)) ==> x == y
  }

  /** None of the rows considered lies inside another. */
  ghost predicate NotNested(rules: Rules, rows: seq<Row>, excluded: Option<nat>) {
    forall a, b :: a in rows && b in rows && Considered(a, excluded) && Considered(b, excluded) ==>
      !IsParent(rules, a.key, b.key)
  }

  /** The rows agree about every key exactly when none lies inside another. */
  lemma AgreeIffNotNested(rules: Rules, rows: seq<Row>, excluded: Option<nat>)
    ensures (forall key :: Agree(rules, rows, key, excluded)) <==> NotNested(rules, rows, excluded)
  {
    if NotNested(rules, rows, excluded) {
      forall key ensures Agree(rules, rows, key, excluded) {
        forall a, b, x, y | a in rows && b in rows && HitBy(rules, a, key, excluded, x) && HitBy(rules, b, key, excluded, y)
          ensures x == y
        {
          assert !IsParent(rules, a.key, b.key) && !IsParent(rules, b.key, a.key);
        }
      }
    } else {
      var a, b :| a in rows && b in rows && Considered(a, excluded) && Considered(b, excluded)
                  && IsParent(rules, a.key, b.key);
      assert HitBy(rules, a, b.key, excluded, Covered) && HitBy(rules, b, b.key, excluded, Duplicate);
      assert !Agree(rules, rows, b.key, excluded);
    }
  }

  /** Where the rows agree, any order of them gives the same relation. */
  lemma VerdictIndependentOfOrder(rules: Rules, rows: seq<Row>, other: seq<Row>, key: string, excluded: Option<nat>,
                                  r: Option<(Row, Relation)>, s: Option<(Row, Relation)>)
    requires NotNested(rules, rows, excluded) && forall row :: row in rows <==> row in other
    requires IsVerdict(rules, rows, key, excluded, r) && IsVerdict(rules, other, key, excluded, s)
    ensures SameKind(r, s)
  {
    AgreeIffNotNested(rules, rows, excluded);
    assert Agree(rules, rows, key, excluded);
    hide RelationOf, NotNested;
    if r.Some? { assert r.value.0 in rows && !Unrelated(rules, r.value.0, key, excluded); }
    if s.Some? { assert s.value.0 in other && !Unrelated(rules, s.value.0, key, excluded); }
  }

  /** Two nested rows and a key between them: each order of the rows has its own verdict. */
  lemma NestedVerdictDependsOnOrder(rules: Rules, outer: Row, inner: Row, key: string)
    requires IsParent(rules, outer.key, key) && IsParent(rules, key, inner.key)
    ensures IsVerdict(rules, [outer, inner], key, None, Some((outer, Covered)))
    ensures IsVerdict(rules, [inner, outer], key, None, Some((inner, Subsumes)))
  {
    assert [outer, inner][0] == outer && HitBy(rules, outer, key, None, Covered);
    assert [inner, outer][0] == inner && HitBy(rules, inner, key, None, Subsumes);
  }

  ghost predicate SameKind(r: Option<(Row, Relation)>, s: Option<(Row, Relation)>) {
    (r.Some? <==> s.Some?) && (r.Some? ==> r.value.1 == s.value.1)
  }

  /** Whatever the key, any two orders of the rows give the same kind of verdict. */
  ghost predicate OrderIrrelevant(rules: Rules, rows: seq<Row>, excluded: Option<nat>) {
    forall key, p, q, r, s ::
      (multiset(p) == multiset(rows) && multiset(q) == multiset(rows)
       && IsVerdict(rules, p, key, excluded, r) && IsVerdict(rules, q, key, excluded, s)) ==> SameKind(r, s)
  }

  lemma FirstDecides(rules: Rules, row: Row, rest: seq<Row>, key: string, excluded: Option<nat>, relation: Relation)
    requires HitBy(rules, row, key, excluded, relation)
    ensures IsVerdict(rules, [row] + rest, key, excluded, Some((row, relation)))
  {
    assert ([row] + rest)[0] == row;
  }

  lemma {:induction false} ToFront(rows: seq<Row>, row: Row)
    requires row in rows
    ensures multiset([row] + Without(rows, row)) == multiset(rows)
  {
    if rows[0] == row {
      assert [row] + rows[1..] == rows;
    } else {
      assert rows == [rows[0]] + rows[1..];
      ToFront(rows[1..], row);
    }
  }

  lemma SameVerdictKind(rules: Rules, rows: seq<Row>, p: seq<Row>, q: seq<Row>, key: string, excluded: Option<nat>,
                        r: Option<(Row, Relation)>, s: Option<(Row, Relation)>)
    requires NotNested(rules, rows, excluded) && multiset(p) == multiset(rows) && multiset(q) == multiset(rows)
    requires IsVerdict(rules, p, key, excluded, r) && IsVerdict(rules, q, key, excluded, s)
    ensures SameKind(r, s)
  {
    hide IsVerdict, IsParent, Considered;
    SameElements(rows, p);
    SameElements(rows, q);
    VerdictIndependentOfOrder(rules, p, q, key, excluded, r, s);
  }

  lemma OrdersDiffer(rules: Rules, rows: seq<Row>, excluded: Option<nat>, a: Row, b: Row)
    requires a in rows && b in rows && Considered(a, excluded) && Considered(b, excluded) && IsParent(rules, a.key, b.key)
    ensures !OrderIrrelevant(rules, rows, excluded)
  {
    hide IsVerdict, IsParent, Considered, HitBy, Without;
    var p, q := [a] + Without(rows, a), [b] + Without(rows, b);
    NestedHits(rules, a, b, excluded);
    FirstDecides(rules, a, Without(rows, a), b.key, excluded, Covered);
    FirstDecides(rules, b, Without(rows, b), b.key, excluded, Duplicate);
    ToFront(rows, a);
    ToFront(rows, b);
    assert !SameKind(Some((a, Covered)), Some((b, Duplicate)));
    assert multiset(p) == multiset(rows) && multiset(q) == multiset(rows);
  }

  /** The order of the rows never matters exactly when none lies inside another. */
  lemma OrderIrrelevantIff(rules: Rules, rows: seq<Row>, excluded: Option<nat>)
    ensures OrderIrrelevant(rules, rows, excluded) <==> NotNested(rules, rows, excluded)
  {
    hide IsVerdict, IsParent, Considered, SameKind;
    if NotNested(rules, rows, excluded) {
      forall key, p, q, r, s |
        multiset(p) == multiset(rows) && multiset(q) == multiset(rows)
        && IsVerdict(rules, p, key, excluded, r) && IsVerdict(rules, q, key, excluded, s)
        ensures SameKind(r, s)
      {
        SameVerdictKind(rules, rows, p, q, key, excluded, r, s);
      }
    } else {
      hide OrderIrrelevant;
      var a, b :| a in rows && b in rows && Considered(a, excluded) && Considered(b, excluded)
                  && IsParent(rules, a.key, b.key);
      OrdersDiffer(rules, rows, excluded, a, b);
    }
  }

  lemma SameElements(rows: seq<Row>, other: seq<Row>)
    requires multiset(rows) == multiset(other)
    ensures forall row :: row in rows <==> row in other
  {
    assert forall row :: row in rows <==> row in multiset(rows);
    assert forall row :: row in other <==> row in multiset(other);
  }

  lemma NestedHits(rules: Rules, a: Row, b: Row, excluded: Option<nat>)
    requires Considered(a, excluded) && Considered(b, excluded) && IsParent(rules, a.key, b.key)
    ensures HitBy(rules, a, b.key, excluded, Covered) && HitBy(rules, b, b.key, excluded, Duplicate)
  {
  }

  /** A file inside one source of an antichain is inside another exactly when the two keys share components. */
  lemma SharedFile(rules: Rules, rows: seq<Row>, i: nat, j: nat, file: string)
    requires Antichain(rules, rows) && i < |rows| && j < |rows| && i != j
    requires IsParent(rules, rows[i].key, file)
    ensures IsParent(rules, rows[j].key, file) <==> PartsOf(rules, rows[i].key) == PartsOf(rules, rows[j].key)
  {
    RelatedBothWays(rules, rows[i].key, rows[j].key);
    assert RelationOf(rules, rows[i].key, rows[j].key) == None;
    if IsParent(rules, rows[j].key, file) {
      PrefixesNested(PartsOf(rules, rows[i].key), PartsOf(rules, rows[j].key), PartsOf(rules, file));
    }
  }

  /** Any file lies inside at most one source of an antichain of normal keys. */
  lemma OneOwner(rules: Rules, rows: seq<Row>, i: nat, j: nat, file: string)
    requires Antichain(rules, rows) && i < |rows| && j < |rows|
    requires IsNormal(rules, rows[i].key) && IsNormal(rules, rows[j].key)
    requires IsParent(rules, rows[i].key, file) && IsParent(rules, rows[j].key, file)
    ensures i == j
  {
    if i != j {
      RelatedBothWays(rules, rows[i].key, rows[j].key);
      assert RelationOf(rules, rows[i].key, rows[j].key) == None;
      SharedFile(rules, rows, i, j, file);
      PartsInjective(rules.host, rules.fold, rows[i].key, rows[j].key);
    }
  }

  lemma ShareKeyParts(rules: Rules, share: string)
    requires share == FoldText(rules.fold, "\\\\s\\h")
    ensures PartsOf(rules, "\\\\s\\h") == [share] && PartsOf(rules, "\\\\s\\h\\") == [share]
    ensures PartsOf(rules, "\\\\s\\h\\f") == [share, "f"]
  {
    var named := "\\\\s\\h";
    assert named + "" == named && named + "\\" == "\\\\s\\h\\" && named + "\\f" == "\\\\s\\h\\f";
    ShareParts(rules, "");
    ShareParts(rules, "\\");
    ShareParts(rules, "\\f");
    TailParts();
    hide PartsOf, Paths.Components, FoldText;
  }

  lemma TrailingSeparator(rules: Rules, key: string)
    requires |key| > 2 && StartsUnc(key) && key[|key| - 1] == '\\'
    ensures !IsNormal(rules, key)
  {
    assert key[2..][|key[2..]| - 1] == '\\';
  }

  lemma UnrelatedKeys(rules: Rules, named: string, resolved: string, file: string)
    requires named != resolved && PartsOf(rules, named) == PartsOf(rules, resolved) < PartsOf(rules, file)
    ensures RelationOf(rules, named, resolved) == None && IsParent(rules, named, file) && IsParent(rules, resolved, file)
    ensures forall row: Row :: row.key == named ==> IsVerdict(rules, [row], resolved, None, None)
  {
    hide PartsOf;
  }

  /**
   * On Windows, in the root of a share, the path `.` gets a key with a trailing separator, which the same root given
   * by name does not have.  The two keys are unrelated, so that both are accepted, and own the same files.
   */
  lemma ShareRootTwice(rules: Rules)
    requires rules.Valid() && rules.host.Windows? && rules.host.absolute(".") == "\\\\s\\h\\"
    ensures var named, resolved, file := "\\\\s\\h", "\\\\s\\h\\", "\\\\s\\h\\f";
            && Normalize(rules.host, rules.fold, named) == Ok((named, named))
            && Normalize(rules.host, rules.fold, ".") == Ok((resolved, resolved))
            && RelationOf(rules, named, resolved) == None && !IsNormal(rules, resolved)
            && (forall row: Row :: row.key == named ==> IsVerdict(rules, [row], resolved, None, None))
            && IsParent(rules, named, file) && IsParent(rules, resolved, file)
  {
    var named, resolved, file := "\\\\s\\h", "\\\\s\\h\\", "\\\\s\\h\\f";
    NamedRoot(rules);
    ResolvedRoot(rules);
    TrailingSeparator(rules, resolved);
    ShareKeyParts(rules, FoldText(rules.fold, named));
    hide PartsOf, IsNormal, FoldText, Normalize, IsVerdict, RelationOf, IsParent;
    assert |named| < |resolved|;
    UnrelatedKeys(rules, named, resolved, file);
  }

  lemma PlainFolds(fold: char -> string, s: string)
    requires Folding(fold) && forall k :: 0 <= k < |s| ==> s[k] < '\U{80}' && Lower(s[k]) == s[k]
    ensures FoldText(fold, s) == s
  {
    FoldOfFolded(fold, s);
  }

  lemma ShareComponents()
    ensures Paths.Components('\\', true, "s\\h\\") == ["s", "h"]
    ensures Paths.Components('\\', false, "\\") == []
  {
    Paths.FirstComponent('\\', "s", "\\h\\");
    Paths.SeparatorFirst('\\', true, "\\h\\");
    Paths.FirstComponent('\\', "h", "\\");
    Paths.SeparatorFirst('\\', true, "\\");
    Paths.SeparatorFirst('\\', false, "\\");
    assert "s" + "\\h\\" == "s\\h\\" && "\\h\\"[1..] == "h\\" && "h" + "\\" == "h\\" && "\\"[1..] == "";
  }

  lemma ShareDrives()
    ensures UncDrive("\\\\s\\h") == 5 == UncDrive("\\\\s\\h\\")
  {
    var named, resolved := "\\\\s\\h", "\\\\s\\h\\";
    assert Paths.Separator('\\', named, 2) == 3 && Paths.Separator('\\', named, 4) == 5;
    assert Paths.Separator('\\', resolved, 2) == 3 && Paths.Separator('\\', resolved, 4) == 5;
  }

  lemma PlainStrips(s: string)
    requires s != "" && !Text.IsSpace(s[0]) && !Text.IsSpace(s[|s| - 1])
    ensures Text.Strip(s) == s
  {
  }

  lemma NamedRoot(rules: Rules)
    requires rules.Valid()
    ensures Normalize(rules.host, rules.fold, "\\\\s\\h") == Ok(("\\\\s\\h", "\\\\s\\h"))
  {
    hide Normalize, FoldText, Text.Strip, Text.Trim, Paths.Components, Paths.Path, Paths.Slashes, UncDrive;
    var named := "\\\\s\\h";
    Paths.SlashesKeep(named);
    ShareDrives();
    ShareComponents();
    TwoNames("s", "h");
    assert (named + "\\")[2..] == "s\\h\\" && "\\\\" + ("s" + "\\" + "h") == named;
    PlainFolds(rules.fold, named);
    PlainStrips(named);
    ShareGivenByName(rules, named, ["s", "h"]);
  }

  lemma TwoNames(server: string, share: string)
    ensures Paths.Path('\\', [server, share]) == server + "\\" + share
  {
    Paths.PathStep('\\', [server, share]);
    assert [server, share][1..] == [share] && Paths.Path('\\', [share]) == share;
    assert server + (['\\'] + share) == server + "\\" + share;
  }

  /** A share given by name is its own key. */
  lemma ShareGivenByName(rules: Rules, named: string, ps: seq<string>)
    requires StartsUnc(named) && Paths.Slashes(named) == named && UncDrive(named) == |named| && Text.Strip(named) == named
    requires Paths.Components('\\', true, (named + "\\")[2..]) == ps && |ps| >= 2 && "\\\\" + Paths.Path('\\', ps) == named
    requires FoldText(rules.fold, named) == named
    ensures Normalize(rules.host, rules.fold, named) == Ok((named, named))
  {
    hide Text.Strip, FoldText, Paths.Components, UncDrive, Paths.Path;
    UncNormPath(named);
    assert named[..|named|] == named && named[|named|..] == "";
    assert SplitDrive(named) == (named, "");
  }

  lemma ResolvedRoot(rules: Rules)
    requires rules.Valid() && rules.host.Windows? && rules.host.absolute(".") == "\\\\s\\h\\"
    ensures Normalize(rules.host, rules.fold, ".") == Ok(("\\\\s\\h\\", "\\\\s\\h\\"))
  {
    hide Normalize, FoldText, Text.Strip, Text.Trim, Paths.Components, Paths.Slashes, UncDrive;
    var resolved := "\\\\s\\h\\";
    Paths.SlashesKeep(resolved);
    ShareDrives();
    ShareComponents();
    assert resolved[5..] == "\\" && resolved[..5] + "\\" == resolved;
    PlainFolds(rules.host.lower, resolved);
    PlainFolds(rules.fold, resolved);
    PlainStrips(".");
    ResolvedShare(rules, ".", resolved);
  }

  /** A path that becomes the root of a share with a separator keeps the separator in its key. */
  lemma ResolvedShare(rules: Rules, path: string, resolved: string)
    requires rules.host.Windows? && path != "" && Text.Strip(path) == path && !IsWindowsPath(path)
    requires rules.host.absolute(path) == resolved && StartsUnc(resolved) && Paths.Slashes(resolved) == resolved
    requires UncDrive(resolved) < |resolved| && Paths.Components('\\', false, resolved[UncDrive(resolved)..]) == []
    requires resolved[..UncDrive(resolved)] + "\\" == resolved
    requires FoldText(rules.host.lower, resolved) == resolved == FoldText(rules.fold, resolved)
    ensures Normalize(rules.host, rules.fold, path) == Ok((resolved, resolved))
  {
    hide Text.Strip, FoldText, Paths.Components, UncDrive, IsWindowsPath;
    UncNormPath(resolved);
    assert Resolve([], true) == [] && Paths.Path('\\', []) == "";
    assert NtNormPath(resolved) == resolved;
  }

  lemma TailParts()
    ensures Paths.Components('\\', true, "") == [] && Paths.Components('\\', true, "\\") == []
    ensures Paths.Components('\\', true, "\\f") == ["f"]
  {
    Paths.SeparatorFirst('\\', true, "\\");
    Paths.SeparatorFirst('\\', true, "\\f");
    assert "\\"[1..] == "" && "\\f"[1..] == "f";
    Paths.ComponentsOfPath('\\', true, ["f"]);
    assert Paths.Path('\\', ["f"]) == "f";
  }

  lemma ShareParts(rules: Rules, tail: string)
    requires tail == "" || tail == "\\" || tail == "\\f"
    ensures PartsOf(rules, "\\\\s\\h" + tail) ==
            [FoldText(rules.fold, "\\\\s\\h")] + Paths.Components('\\', true, tail)
  {
    var key := "\\\\s\\h" + tail;
    Paths.SlashesKeep(key);
    assert Paths.Separator('\\', key, 2) == 3;
    assert Paths.Separator('\\', key, 4) == 5;
    assert UncDrive(key) == 5 && key[..5] == "\\\\s\\h" && key[5..] == tail;
    Paths.SlashesKeep(tail);
  }

  lemma AppendKeeps(rules: Rules, rows: seq<Row>, row: Row)
    requires Antichain(rules, rows)
    requires forall r :: r in rows ==> RelationOf(rules, r.key, row.key) == None
    ensures Antichain(rules, rows + [row])
  {
  }

  lemma UpdateKeeps(rules: Rules, rows: seq<Row>, k: nat, row: Row)
    requires Antichain(rules, rows) && UniqueIds(rows) && k < |rows| && row.id == rows[k].id
    requires forall r :: r in rows && Considered(r, Some(row.id)) ==> RelationOf(rules, r.key, row.key) == None
    ensures Antichain(rules, rows[k := row])
  {
    var more := rows[k := row];
    forall i, j | 0 <= i < j < |more| ensures RelationOf(rules, more[i].key, more[j].key) == None {
      RelatedBothWays(rules, more[i].key, more[j].key);
      assert i != k ==> rows[i] in rows && (rows[i].id == row.id ==> i == k);
      assert j != k ==> rows[j] in rows && (rows[j].id == row.id ==> j == k);
      assert i != k && j != k ==> RelationOf(rules, rows[i].key, rows[j].key) == None;
    }
  }

  /** In an antichain, apart from the row being moved, no row equals a key that another is found to lie under. */
  lemma NeverNotUnique(rules: Rules, rows: seq<Row>, key: string, excluded: Option<nat>, a: Row, b: Row)
    requires Antichain(rules, rows) && a in rows && b in rows
    requires HitBy(rules, a, key, excluded, Subsumes)
    ensures b.key != key
  {
    var i :| 0 <= i < |rows| && rows[i] == a;
    var j :| 0 <= j < |rows| && rows[j] == b;
    RelatedBothWays(rules, a.key, b.key);
    if i < j { assert RelationOf(rules, rows[i].key, rows[j].key) == None; }
    if j < i { assert RelationOf(rules, rows[j].key, rows[i].key) == None; }
  }

  /** The row an overlap error is about: the verdict, unless it is a subsumed row and that is allowed. */
  function Clash(verdict: Option<(Row, Relation)>, allowSubsume: bool): Option<(Row, Relation)> {
    if verdict.Some? && allowSubsume && verdict.value.1 == Subsumes then None else verdict
  }

  /**
   * The outer of two nested rows has a key that the overlap rule lets pass, if subsuming is allowed and the inner row
   * comes first, although a row has that key already.
   */
  lemma NestedKeyTaken(rules: Rules, outer: Row, inner: Row)
    requires IsParent(rules, outer.key, inner.key)
    ensures IsVerdict(rules, [inner, outer], outer.key, None, Some((inner, Subsumes)))
    ensures Clash(Some((inner, Subsumes)), true) == None && HasKey([inner, outer], outer.key, None)
  {
    assert [inner, outer] == [inner] + [outer];
    FirstDecides(rules, inner, [outer], outer.key, None, Subsumes);
    assert outer in [inner, outer] && Considered(outer, None);
  }

  /** In this order of the rows the overlap rule lets a key pass that a row has. */
  ghost predicate LetsTakenPass(rules: Rules, rows: seq<Row>, key: string, excluded: Option<nat>) {
    HasKey(rows, key, excluded)
    && exists verdict :: IsVerdict(rules, rows, key, excluded, verdict) && Clash(verdict, true) == None
  }

  ghost predicate SomeOrderLetsTakenPass(rules: Rules, rows: seq<Row>, excluded: Option<nat>) {
    exists q, key :: multiset(q) == multiset(rows) && LetsTakenPass(rules, q, key, excluded)
  }

  lemma PassedIsNested(rules: Rules, rows: seq<Row>, key: string, excluded: Option<nat>)
    requires LetsTakenPass(rules, rows, key, excluded)
    ensures !NotNested(rules, rows, excluded)
  {
    var verdict :| IsVerdict(rules, rows, key, excluded, verdict) && Clash(verdict, true) == None;
    var b :| b in rows && Considered(b, excluded) && b.key == key;
    assert !Unrelated(rules, b, key, excluded);
    assert verdict.Some? && verdict.value.0 in rows && HitBy(rules, verdict.value.0, key, excluded, Subsumes);
  }

  lemma NestedPasses(rules: Rules, rows: seq<Row>, excluded: Option<nat>, a: Row, b: Row)
    requires a in rows && b in rows && Considered(a, excluded) && Considered(b, excluded) && IsParent(rules, a.key, b.key)
    ensures SomeOrderLetsTakenPass(rules, rows, excluded)
  {
    hide IsVerdict, IsParent, Without, LetsTakenPass;
    var q := [b] + Without(rows, b);
    ToFront(rows, b);
    SameElements(rows, q);
    OuterPasses(rules, q, excluded, a, b);
  }

  lemma OuterPasses(rules: Rules, q: seq<Row>, excluded: Option<nat>, a: Row, b: Row)
    requires a in q && q != [] && q[0] == b && Considered(a, excluded) && Considered(b, excluded) && IsParent(rules, a.key, b.key)
    ensures LetsTakenPass(rules, q, a.key, excluded)
  {
    assert HitBy(rules, b, a.key, excluded, Subsumes);
    FirstDecides(rules, b, q[1..], a.key, excluded, Subsumes);
    assert [b] + q[1..] == q && Clash(Some((b, Subsumes)), true) == None;
  }

  /** The database can come to refuse a key that the overlap rule lets pass exactly when rows are nested. */
  lemma NotUniqueIffNested(rules: Rules, rows: seq<Row>, excluded: Option<nat>)
    ensures SomeOrderLetsTakenPass(rules, rows, excluded) <==> !NotNested(rules, rows, excluded)
  {
    hide LetsTakenPass, IsParent, Considered;
    if SomeOrderLetsTakenPass(rules, rows, excluded) {
      var q, key :| multiset(q) == multiset(rows) && LetsTakenPass(rules, q, key, excluded);
      PassedIsNested(rules, q, key, excluded);
      SameElements(rows, q);
    }
    if !NotNested(rules, rows, excluded) {
      var a, b :| a in rows && b in rows && Considered(a, excluded) && Considered(b, excluded)
                  && IsParent(rules, a.key, b.key);
      NestedPasses(rules, rows, excluded, a, b);
    }
  }

  /** What the source table keeps; see the fields of `Catalog`. */
  ghost predicate TableValid(rules: Rules, rows: seq<Row>, nextId: nat, subsumed: bool, odd: bool) {
    && UniqueIds(rows) && UniqueKeys(rows)
    && (forall k :: 0 <= k < |rows| ==> rows[k].id < nextId)
    && (!subsumed ==> Antichain(rules, rows))
    && (!odd ==> forall k :: 0 <= k < |rows| ==> IsNormal(rules, rows[k].key))
    && (rules.host.Posix? ==> !odd)
  }

  lemma AppendValid(rules: Rules, rows: seq<Row>, nextId: nat, subsumed: bool, odd: bool, row: Row, nested: bool)
    requires TableValid(rules, rows, nextId, subsumed, odd) && row.id == nextId
    requires !HasKey(rows, row.key, None)
    requires !nested ==> AllUnrelated(rules, rows, row.key, None)
    requires rules.host.Posix? ==> IsNormal(rules, row.key)
    ensures TableValid(rules, rows + [row], nextId + 1, subsumed || nested, odd || !IsNormal(rules, row.key))
  {
    hide IsNormal, RelationOf;
    if !subsumed && !nested {
      assert forall r :: r in rows ==> Unrelated(rules, r, row.key, None);
      AppendKeeps(rules, rows, row);
    }
  }

  lemma UpdateValid(rules: Rules, rows: seq<Row>, nextId: nat, subsumed: bool, odd: bool, k: nat, row: Row, nested: bool)
    requires TableValid(rules, rows, nextId, subsumed, odd) && k < |rows| && row.id == rows[k].id
    requires !HasKey(rows, row.key, Some(row.id))
    requires !nested ==> AllUnrelated(rules, rows, row.key, Some(row.id))
    requires rules.host.Posix? ==> IsNormal(rules, row.key)
    ensures TableValid(rules, rows[k := row], nextId, subsumed || nested, odd || !IsNormal(rules, row.key))
  {
    hide IsNormal, RelationOf;
    if !subsumed && !nested {
      assert forall r :: r in rows ==> Unrelated(rules, r, row.key, Some(row.id));
      UpdateKeeps(rules, rows, k, row);
    }
    assert forall j :: 0 <= j < |rows| && j != k ==> rows[j] in rows && Considered(rows[j], Some(row.id));
  }

  lemma RemoveValid(rules: Rules, rows: seq<Row>, nextId: nat, subsumed: bool, odd: bool, k: nat)
    requires TableValid(rules, rows, nextId, subsumed, odd) && k < |rows|
    ensures TableValid(rules, rows[..k] + rows[k + 1..], nextId, subsumed, odd)
    ensures forall row :: row in rows[..k] + rows[k + 1..] <==> row in rows && row.id != rows[k].id
  {
    hide IsNormal, RelationOf;
    var fewer := rows[..k] + rows[k + 1..];
    assert forall i :: 0 <= i < |fewer| ==> fewer[i] == rows[if i < k then i else i + 1];
    assert rows == rows[..k] + [rows[k]] + rows[k + 1..];
  }

  /** The source table and the operations on it. */
  class Catalog {
    const rules: Rules
    var rows: seq<Row>
    var nextId: nat
    /** Whether some add or update was allowed to subsume existing sources. */
    ghost var subsumed: bool
    /** Whether some key is not in normal form. */
    ghost var odd: bool

    ghost predicate Valid()
      reads this
    {
      rules.Valid() && TableValid(rules, rows, nextId, subsumed, odd)
    }

    constructor (rules: Rules)
      requires rules.Valid()
      ensures Valid() && rows == [] && !subsumed && !odd && this.rules == rules
    {
      this.rules := rules;
      rows, nextId, subsumed, odd := [], 1, false, false;
    }

    /** Any file lies inside at most one source. */
    lemma AtMostOneOwner(i: nat, j: nat, file: string)
      requires Valid() && !subsumed && !odd && i < |rows| && j < |rows|
      requires IsParent(rules, rows[i].key, file) && IsParent(rules, rows[j].key, file)
      ensures i == j
    {
      OneOwner(rules, rows, i, j, file);
    }

    /** Where a source is, by id. */
    method Find(id: nat) returns (k: Option<nat>)
      ensures k.Some? ==> k.value < |rows| && rows[k.value].id == id
      ensures k.None? ==> forall row :: row in rows ==> row.id != id
    {
      for i := 0 to |rows|
        invariant forall j :: 0 <= j < i ==> rows[j].id != id
      {
        if rows[i].id == id {
          return Some(i);
        }
      }
      return None;
    }

    /** On a system with `/` every key is in normal form. */
    lemma KeyOf(path: string)
      requires rules.Valid() && Normalize(rules.host, rules.fold, path).Ok? && rules.host.Posix?
      ensures IsNormal(rules, Normalize(rules.host, rules.fold, path).value.1)
    {
      KeyNormal(rules.host, rules.fold, path);
    }

    /** The overlap rule on the rows in the order `query`. */
    method CheckOverlap(query: seq<Row>, key: string, excluded: Option<nat>, allowSubsume: bool)
      returns (clash: Option<(Row, Relation)>, verdict: Option<(Row, Relation)>)
      requires multiset(query) == multiset(rows)
      ensures IsVerdict(rules, query, key, excluded, verdict) && clash == Clash(verdict, allowSubsume)
      ensures verdict.Some? ==> verdict.value.0 in rows && HitBy(rules, verdict.value.0, key, excluded, verdict.value.1)
      ensures verdict.None? ==> AllUnrelated(rules, rows, key, excluded)
    {
      verdict := FindOverlap(rules, query, key, excluded);
      clash := if verdict.Some? && allowSubsume && verdict.value.1 == Subsumes then None else verdict;
      SameElements(query, rows);
      assert verdict.None? ==> forall k :: 0 <= k < |query| ==> Unrelated(rules, query[k], key, excluded);
    }

    /** Whether another row has the key; the column is declared unique. */
    method Taken(key: string, excluded: Option<nat>) returns (taken: bool)
      ensures taken <==> HasKey(rows, key, excluded)
    {
      for k := 0 to |rows|
        invariant forall i :: 0 <= i < k ==> !(Considered(rows[i], excluded) && rows[i].key == key)
      {
        if Considered(rows[k], excluded) && rows[k].key == key {
          return true;
        }
      }
      return false;
    }

    /** Unless sources are nested, no other row has a key that the overlap rule lets pass. */
    lemma FreeOfKey(key: string, excluded: Option<nat>, allowSubsume: bool, verdict: Option<(Row, Relation)>)
      requires Antichain(rules, rows) && Clash(verdict, allowSubsume) == None
      requires verdict.Some? ==> verdict.value.0 in rows && HitBy(rules, verdict.value.0, key, excluded, verdict.value.1)
      requires verdict.None? ==> AllUnrelated(rules, rows, key, excluded)
      ensures !HasKey(rows, key, excluded)
    {
      forall row | row in rows && Considered(row, excluded) ensures row.key != key {
        if verdict.Some? {
          NeverNotUnique(rules, rows, key, excluded, verdict.value.0, row);
        } else {
          assert Unrelated(rules, row, key, excluded);
        }
      }
    }

    /** Why a path with this key is refused, if it is. */
    method Refusal(query: seq<Row>, key: string, excluded: Option<nat>, allowSubsume: bool)
      returns (refusal: Option<SourceError>, ghost verdict: Option<(Row, Relation)>)
      requires Valid() && multiset(query) == multiset(rows)
      ensures IsVerdict(rules, query, key, excluded, verdict)
      ensures Clash(verdict, allowSubsume).Some? ==>
                var (row, relation) := Clash(verdict, allowSubsume).value; refusal == Some(Overlap(relation, row.id))
      ensures Clash(verdict, allowSubsume).None? ==>
                refusal == if HasKey(rows, key, excluded) then Some(NotUnique) else None
      ensures refusal.None? && verdict.None? ==> AllUnrelated(rules, rows, key, excluded)
      ensures !subsumed ==> refusal != Some(NotUnique)
    {
      hide IsVerdict, RelationOf, HitBy, UniqueIds, UniqueKeys, IsNormal;
      var clash;
      clash, verdict := CheckOverlap(query, key, excluded, allowSubsume);
      if clash.Some? {
        return Some(Overlap(clash.value.1, clash.value.0.id)), verdict;
      }
      if !subsumed { FreeOfKey(key, excluded, allowSubsume, verdict); }
      var taken := Taken(key, excluded);
      refusal := if taken then Some(NotUnique) else None;
    }

    /** The outcome for a key: refused, or stored as `row` with `rows'` the rows then. */
    ghost predicate Outcome(r: Result<Row, SourceError>, verdict: Option<(Row, Relation)>, allowSubsume: bool,
                            rows: seq<Row>, excluded: Option<nat>, row: Row, rows': seq<Row>, stored: seq<Row>)
    {
      if verdict.Some? && !(allowSubsume && verdict.value.1 == Subsumes) then
        r == Err(Overlap(verdict.value.1, verdict.value.0.id)) && rows' == rows
      else if HasKey(rows, row.key, excluded) then r == Err(NotUnique) && rows' == rows
      else r == Ok(row) && rows' == stored
    }

    function Titled(title: string, display: string): string {
      if Text.Strip(title) != "" then Text.Strip(title) else rules.title(display)
    }

    /** The rest of `add_source`, once the key is known. */
    method Insert(row: Row, allowSubsume: bool, query: seq<Row>)
      returns (r: Result<Row, SourceError>, ghost verdict: Option<(Row, Relation)>)
      requires Valid() && multiset(query) == multiset(rows) && row.id == nextId
      requires rules.host.Posix? ==> IsNormal(rules, row.key)
      modifies this
      ensures Valid() && IsVerdict(rules, query, row.key, None, verdict)
      ensures Outcome(r, verdict, allowSubsume, old(rows), None, row, rows, old(rows) + [row])
      ensures nextId == old(nextId) + if r.Ok? then 1 else 0
      ensures odd == (old(odd) || (r.Ok? && !IsNormal(rules, row.key)))
      ensures subsumed == (old(subsumed) || (r.Ok? && verdict.Some?))
      ensures !old(subsumed) ==> r != Err(NotUnique)
    {
      hide IsNormal, IsVerdict, AllUnrelated, HasKey, TableValid, Rules.Valid;
      var refusal;
      refusal, verdict := Refusal(query, row.key, None, allowSubsume);
      if refusal.Some? {
        return Err(refusal.value), verdict;
      }
      AppendValid(rules, rows, nextId, subsumed, odd, row, verdict.Some?);
      odd, subsumed := odd || !IsNormal(rules, row.key), subsumed || verdict.Some?;
      rows := rows + [row];
      nextId := nextId + 1;
      r := Ok(row);
    }

    /**
     * `add_source`, with the rows in the order `query` in which the overlap query yields them; what it
     * refuses it leaves unchanged.  Only nested sources can make the database refuse the insert.
     */
    method Add(path: string, title: string, enabled: bool, recursive: bool, allowSubsume: bool, query: seq<Row>)
      returns (r: Result<Row, SourceError>, ghost verdict: Option<(Row, Relation)>)
      requires Valid() && multiset(query) == multiset(rows)
      modifies this
      ensures Valid() && nextId == old(nextId) + if r.Ok? then 1 else 0
      ensures match Normalize(rules.host, rules.fold, path)
              case Err(e) => r == Err(Invalid(e)) && rows == old(rows)
              case Ok((display, key)) =>
                var named := if Text.Strip(title) == "" then rules.title(display) else Text.Strip(title);
                var row := Row(old(nextId), display, key, named, enabled, recursive);
                && IsVerdict(rules, query, key, None, verdict)
                && Outcome(r, verdict, allowSubsume, old(rows), None, row, rows, old(rows) + [row])
      ensures odd == (old(odd) || (r.Ok? && !IsNormal(rules, r.value.key)))
      ensures subsumed == (old(subsumed) || (r.Ok? && verdict.Some?))
      ensures !old(subsumed) ==> r != Err(NotUnique)
    {
      hide Normalize, IsNormal, IsVerdict, TableValid, Rules.Valid, Clash, HasKey, IsWindowsPath, Text.Strip;
      var normalized := Normalize(rules.host, rules.fold, path);
      if normalized.Err? {
        return Err(Invalid(normalized.error)), None;
      }
      var (display, key) := normalized.value;
      if rules.host.Posix? { KeyOf(path); }
      r, verdict := Insert(Row(nextId, display, key, Titled(title, display), enabled, recursive), allowSubsume, query);
    }

    /** The rest of `update_source`, once the row and its new key are known. */
    method Replace(k: nat, row: Row, allowSubsume: bool, query: seq<Row>)
      returns (r: Result<Row, SourceError>, ghost verdict: Option<(Row, Relation)>)
      requires Valid() && multiset(query) == multiset(rows) && k < |rows| && row.id == rows[k].id
      requires rules.host.Posix? ==> IsNormal(rules, row.key)
      modifies this
      ensures Valid() && nextId == old(nextId) && IsVerdict(rules, query, row.key, Some(row.id), verdict)
      ensures Outcome(r, verdict, allowSubsume, old(rows), Some(row.id), row, rows, old(rows)[k := row])
      ensures odd == (old(odd) || (r.Ok? && !IsNormal(rules, row.key)))
      ensures subsumed == (old(subsumed) || (r.Ok? && verdict.Some?))
      ensures !old(subsumed) ==> r != Err(NotUnique)
    {
      hide IsNormal, IsVerdict, AllUnrelated, HasKey, TableValid, Rules.Valid;
      var refusal;
      refusal, verdict := Refusal(query, row.key, Some(row.id), allowSubsume);
      if refusal.Some? {
        return Err(refusal.value), verdict;
      }
      UpdateValid(rules, rows, nextId, subsumed, odd, k, row, verdict.Some?);
      odd, subsumed := odd || !IsNormal(rules, row.key), subsumed || verdict.Some?;
      rows := rows[k := row];
      r := Ok(row);
    }

    /** `update_source`: absent arguments keep what the row has. */
    method Update(id: nat, path: Option<string>, title: Option<string>, recursive: Option<bool>, allowSubsume: bool,
                  query: seq<Row>)
      returns (r: Result<Row, SourceError>, ghost k: nat, ghost verdict: Option<(Row, Relation)>)
      requires Valid() && multiset(query) == multiset(rows)
      modifies this
      ensures Valid() && nextId == old(nextId)
      ensures r == Err(UnknownSource(id)) <==> forall row :: row in old(rows) ==> row.id != id
      ensures r == Err(UnknownSource(id)) ==> rows == old(rows)
      ensures r != Err(UnknownSource(id)) ==>
                && k < |old(rows)| && old(rows)[k].id == id
                && match Normalize(rules.host, rules.fold, path.GetOr(old(rows)[k].path))
                   case Err(e) => r == Err(Invalid(e)) && rows == old(rows)
                   case Ok((display, key)) =>
                     var row := Row(id, display, key, Text.Strip(title.GetOr(old(rows)[k].title)),
                                    old(rows)[k].enabled, recursive.GetOr(old(rows)[k].recursive));
                     && IsVerdict(rules, query, key, Some(id), verdict)
                     && Outcome(r, verdict, allowSubsume, old(rows), Some(id), row, rows, old(rows)[k := row])
      ensures odd == (old(odd) || (r.Ok? && !IsNormal(rules, r.value.key)))
      ensures subsumed == (old(subsumed) || (r.Ok? && verdict.Some?))
      ensures !old(subsumed) ==> r != Err(NotUnique)
    {
      hide Normalize, IsNormal, IsVerdict, TableValid, Rules.Valid, Clash, HasKey, IsWindowsPath, Text.Strip;
      k, verdict := 0, None;
      var found := Find(id);
      if found.None? {
        return Err(UnknownSource(id)), k, verdict;
      }
      var at := found.value;
      k := at;
      var was := rows[at];
      var normalized := Normalize(rules.host, rules.fold, path.GetOr(was.path));
      if normalized.Err? {
        return Err(Invalid(normalized.error)), k, verdict;
      }
      var (display, key) := normalized.value;
      if rules.host.Posix? { KeyOf(path.GetOr(was.path)); }
      var row := Row(id, display, key, Text.Strip(title.GetOr(was.title)), was.enabled, recursive.GetOr(was.recursive));
      r, verdict := Replace(at, row, allowSubsume, query);
    }

    /** `remove_source` */
    method Remove(id: nat) returns (r: Result<Row, SourceError>, ghost k: nat)
      requires Valid()
      modifies this`rows
      ensures Valid()
      ensures r.Err? ==> r == Err(UnknownSource(id)) && rows == old(rows) && forall row :: row in rows ==> row.id != id
      ensures r.Ok? ==>
                && k < |old(rows)| && r.value == old(rows)[k] && r.value.id == id
                && rows == old(rows)[..k] + old(rows)[k + 1..]
      ensures r.Ok? ==> forall row :: row in rows <==> row in old(rows) && row.id != id
    {
      k := 0;
      var found := Find(id);
      if found.None? {
        return Err(UnknownSource(id)), k;
      }
      var at := found.value;
      k := at;
      r := Ok(rows[at]);
      RemoveValid(rules, rows, nextId, subsumed, odd, at);
      rows := rows[..at] + rows[at + 1..];
    }
  }

  /** Then the database refuses the second row: an inner source is added, then twice an outer one that may subsume it. */
  method AddedTwice(catalog: Catalog, inner: string, outer: string)
    returns (first: Result<Row, SourceError>, second: Result<Row, SourceError>, third: Result<Row, SourceError>)
    requires catalog.Valid() && catalog.rows == [] && IsParent(catalog.rules, outer, inner)
    requires catalog.rules.host.Posix? ==> IsNormal(catalog.rules, inner) && IsNormal(catalog.rules, outer)
    modifies catalog
    ensures first.Ok? && second.Ok? && third == Err(NotUnique)
    ensures catalog.rows == [first.value, second.value]
  {
    hide IsNormal, RelationOf, IsVerdict, IsParent, TableValid;
    ghost var verdict;
    var a := Row(catalog.nextId, inner, inner, "", true, true);
    first, verdict := catalog.Insert(a, true, []);
    FirstAdded(catalog.rules, inner, verdict);
    assert [] + [a] == [a];
    var b := Row(catalog.nextId, outer, outer, "", true, true);
    NestedKeyTaken(catalog.rules, b, a);
    second, verdict := catalog.Insert(b, true, [a]);
    OuterAdded(catalog.rules, b, a, verdict);
    assert [a] + [b] == [a, b];
    var c := Row(catalog.nextId, outer, outer, "", true, true);
    third, verdict := catalog.Insert(c, true, [a, b]);
    VerdictUnique(catalog.rules, [a, b], outer, None, verdict, Some((a, Subsumes)));
  }

  lemma FirstAdded(rules: Rules, key: string, verdict: Option<(Row, Relation)>)
    requires IsVerdict(rules, [], key, None, verdict)
    ensures verdict == None && !HasKey([], key, None)
  {
  }

  lemma OuterAdded(rules: Rules, outer: Row, inner: Row, verdict: Option<(Row, Relation)>)
    requires IsParent(rules, outer.key, inner.key) && IsVerdict(rules, [inner], outer.key, None, verdict)
    ensures verdict == Some((inner, Subsumes)) && !HasKey([inner], outer.key, None)
  {
    FirstDecides(rules, inner, [], outer.key, None, Subsumes);
    assert [inner] + [] == [inner];
    VerdictUnique(rules, [inner], outer.key, None, verdict, Some((inner, Subsumes)));
  }
}
