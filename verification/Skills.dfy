/** The Skill file format: its parser, its printer, and when printing a parsed Skill can be parsed back. */
module Skills {
  import opened Basics
  import opened CaseFolding
  import opened Paths
  import opened Text
  import opened Wrappers

  /** The member names the format knows, and any other. */
  datatype Field =
    | SchemaVersion | Id | NameField | Description | Enabled | Priority | Match | Retrieval | BusinessContext | Answer
    | EvidencePolicy | Identifiers | Phrases | Keywords | Mode | PathPrefixes | Extensions | TemporalPolicy | MaxDocuments
    | ScopeField | Kind | RelativePathList | Guidance | Sections | Title | Required
    | Unknown(name: string)

  datatype Json =
    | Null
    | Boolean(truth: bool)
    | Integer(number: int)
    | Fraction(decimal: real)
    | Str(text: string)
    | List(items: seq<Json>)
    | Object(fields: map<Field, Json>)

  datatype MatchSpec = MatchSpec(identifiers: seq<string>, phrases: seq<string>, keywords: seq<string>)

  datatype RetrievalSpec = RetrievalSpec(
    mode: string, pathPrefixes: seq<string>, extensions: seq<string>, temporalPolicy: string, maxDocuments: int,
    scopeKind: string, relativePaths: seq<string>)

  datatype Section = Section(title: string, guidance: string, required: bool)

  datatype SkillSpec = SkillSpec(
    version: int, id: string, name: string, description: string, enabled: bool, priority: int, matching: MatchSpec,
    retrieval: RetrievalSpec, businessContext: string, guidance: string, sections: seq<Section>, evidencePolicy: string)

  datatype SkillError = SkillInvalid | SchemaUnsupported

  // ----- Strings

  function String(value: Json, maximum: nat, empty: bool): (r: Option<string>)
    ensures r.Some? ==> value.Str? && r.value == Strip(value.text) && |r.value| <= maximum && (!empty ==> r.value != "")
  {
    if !value.Str? || (!empty && Strip(value.text) == "") || |value.text| > maximum then None else Some(Strip(value.text))
  }

  /** What the loop of `_strings` accumulates. */
  function StringsOf(items: seq<Json>, maximum: nat): (r: Option<seq<string>>)
    ensures r.Some? ==> |r.value| == |items| && Distinct(r.value)
  {
    if items == [] then Some([]) else
      var n := |items| - 1;
      var front := StringsOf(items[..n], maximum);
      var last := String(items[n], maximum, false);
      if front.None? || last.None? || last.value in front.value then None else Some(front.value + [last.value])
  }

  function Strings(value: Json, count: nat, maximum: nat): Option<seq<string>> {
    if !value.List? || |value.items| > count then None else StringsOf(value.items, maximum)
  }

  /** The loop of `_strings`, which stops at the first bad value. */
  method ReadStrings(value: Json, count: nat, maximum: nat) returns (r: Option<seq<string>>)
    ensures r == Strings(value, count, maximum)
  {
    if !value.List? || |value.items| > count {
      return None;
    }
    var result: seq<string> := [];
    assert StringsOf(value.items[..0], maximum) == Some(result);
    hide String, StringsOf;
    for i := 0 to |value.items|
      invariant StringsOf(value.items[..i], maximum) == Some(result)
    {
      StringsStep(value.items, i, maximum, result);
      var cleaned := String(value.items[i], maximum, false);
      if cleaned.None? || cleaned.value in result {
        StringsPrefix(value.items, i + 1, maximum);
        return None;
      }
      result := result + [cleaned.value];
    }
    assert value.items[..|value.items|] == value.items;
    return Some(result);
  }

  lemma StringsStep(items: seq<Json>, i: nat, maximum: nat, before: seq<string>)
    requires i < |items| && StringsOf(items[..i], maximum) == Some(before)
    ensures var cleaned := String(items[i], maximum, false);
            StringsOf(items[..i + 1], maximum) ==
            if cleaned.None? || cleaned.value in before then None else Some(before + [cleaned.value])
  {
    hide String;
    assert items[..i + 1][..i] == items[..i];
  }

  lemma {:induction false} StringsPrefix(items: seq<Json>, i: nat, maximum: nat)
    requires i <= |items| && StringsOf(items[..i], maximum).None?
    ensures StringsOf(items, maximum).None?
    decreases |items| - i
  {
    if i < |items| {
      assert items[..i + 1][..i] == items[..i];
      StringsPrefix(items, i + 1, maximum);
    } else {
      assert items[..i] == items;
    }
  }

  function Texts(ss: seq<string>): (r: seq<Json>)
    ensures |r| == |ss| && forall k :: 0 <= k < |ss| ==> r[k] == Str(ss[k])
  {
    seq(|ss|, k requires 0 <= k < |ss| => Str(ss[k]))
  }

  /** A text that the string check leaves as it is. */
  predicate Clean(s: string, maximum: nat) {
    s != "" && |s| <= maximum && Strip(s) == s
  }

  predicate AllClean(ss: seq<string>, maximum: nat) {
    forall k :: 0 <= k < |ss| ==> Clean(ss[k], maximum)
  }

  lemma StripTwice(s: string)
    ensures Strip(Strip(s)) == Strip(s) && |Strip(s)| <= |s|
  {
    var r := Trim(s, 0, |s|);
    var t := s[r.start..r.end];
    if t != "" {
      var q := Trim(t, 0, |t|);
      assert t[0] == s[r.start] && t[|t| - 1] == s[r.end - 1];
      assert !IsSpace(t[0]) && !IsSpace(t[|t| - 1]);
      assert q.start == 0;
      assert q.end == |t|;
    }
  }

  lemma {:induction false} StringsAreClean(items: seq<Json>, maximum: nat)
    requires StringsOf(items, maximum).Some?
    ensures AllClean(StringsOf(items, maximum).value, maximum)
  {
    if items != [] {
      var n := |items| - 1;
      StringsAreClean(items[..n], maximum);
      StripTwice(items[n].text);
    }
  }

  lemma {:induction false} CleanBack(ss: seq<string>, maximum: nat)
    requires Distinct(ss) && AllClean(ss, maximum)
    ensures StringsOf(Texts(ss), maximum) == Some(ss)
  {
    if ss != [] {
      var n := |ss| - 1;
      var front := ss[..n];
      assert Distinct(front) && AllClean(front, maximum);
      CleanBack(front, maximum);
      assert Clean(ss[n], maximum) && ss[n] !in front;
      hide Distinct, AllClean, Clean;
      assert Texts(ss)[..n] == Texts(front);
      assert ss == front + [ss[n]];
    }
  }

  // ----- Relative paths

  /** The components of a relative path, without empty ones and `.` */
  function Parts(s: string): seq<string> {
    Components('\\', false, s)
  }

  /** `_relative_path`, after its string check. */
  function RelativePath(fold: char -> string, s: string): Option<string> {
    var raw := Slashes(s);
    var ps := Parts(raw);
    if raw[..if |raw| < 2 then |raw| else 2] == "\\\\" || DriveQualified(raw) || ps == [] || ".." in ps
    then None else Some(Path('\\', FoldParts(fold, ps)))
  }

  predicate IsSeparator(c: char) {
    c == '/' || c == '\\'
  }

  /** A path is accepted unless it begins like a share or a drive, names no component, or one of them goes up. */
  lemma AcceptedIff(fold: char -> string, s: string)
    ensures RelativePath(fold, s).Some? <==>
            && !(|s| >= 2 && IsSeparator(s[0]) && IsSeparator(s[1]))
            && !(|s| >= 2 && s[1] == ':' && ('a' <= s[0] <= 'z' || 'A' <= s[0] <= 'Z'))
            && Parts(Slashes(s)) != [] && forall x :: x in Parts(Slashes(s)) ==> x != ".."
  {
    var raw := Slashes(s);
    if |raw| >= 2 { assert raw[..2] == [raw[0], raw[1]]; }
  }

  function RelativePaths(fold: char -> string, ss: seq<string>): (r: Option<seq<string>>)
    ensures r.Some? ==> |r.value| == |ss| && forall k :: 0 <= k < |ss| ==> RelativePath(fold, ss[k]) == Some(r.value[k])
    ensures r.None? <==> exists k :: 0 <= k < |ss| && RelativePath(fold, ss[k]).None?
  {
    if ss == [] then Some([]) else
      var n := |ss| - 1;
      var front := RelativePaths(fold, ss[..n]);
      var last := RelativePath(fold, ss[n]);
      if front.None? then
        var k :| 0 <= k < n && RelativePath(fold, ss[..n][k]).None?;
        assert RelativePath(fold, ss[k]).None?;
        None
      else if last.None? then None
      else Some(front.value + [last.value])
  }

  // ----- Printing a path and reading it again

  /** What every accepted relative path looks like. */
  ghost predicate Normal(fold: char -> string, p: string) {
    && p != "" && p[0] != '\\' && '/' !in p && Folded(fold, p)
    && Parts(p) != [] && ".." !in Parts(p) && Path('\\', Parts(p)) == p
  }

  lemma FoldedComponent(fold: char -> string, raw: string, k: nat)
    requires Folding(fold) && k < |Parts(raw)| && '/' !in raw
    ensures var p := FoldText(fold, Parts(raw)[k]);
            IsPart('\\', false, p) && Folded(fold, p) && '/' !in p && (p == ".." <==> Parts(raw)[k] == "..")
  {
    if '/' in Parts(raw)[k] {
      ComponentsChars('\\', false, raw, k, '/');
    }
    FoldedPart(fold, '\\', false, Parts(raw)[k]);
  }

  lemma RelativePathNormal(fold: char -> string, s: string)
    requires Folding(fold) && RelativePath(fold, s).Some?
    ensures Normal(fold, RelativePath(fold, s).value)
  {
    var raw := Slashes(s);
    var ps := Parts(raw);
    var fs := FoldParts(fold, ps);
    var p := Path('\\', fs);
    forall k | 0 <= k < |ps|
      ensures IsPart('\\', false, fs[k]) && Folded(fold, fs[k]) && '/' !in fs[k] && fs[k] != ".."
    {
      FoldedComponent(fold, raw, k);
      assert ps[k] in ps;
    }
    ComponentsOfPath('\\', false, fs);
    FoldPath(fold, '\\', ps);
    FoldTextIs(fold, Path('\\', ps));
    forall k | 0 <= k < |p| ensures p[k] != '/' {
      PathChars('\\', fs, k);
    }
    assert p[..|fs[0]|] == fs[0] && p[0] == fs[0][0];
  }

  /** A normal path is read back unchanged unless it looks drive-qualified. */
  lemma NormalPathBack(fold: char -> string, p: string)
    requires Normal(fold, p)
    ensures RelativePath(fold, p) == (if DriveQualified(p) then None else Some(p))
  {
    assert Slashes(p) == p;
    ComponentsOfFolded(fold, '\\', false, p);
  }

  /** Reading a folded path never makes it longer. */
  lemma ReadIsNoLonger(fold: char -> string, q: string)
    requires Folded(fold, q) && '/' !in q && RelativePath(fold, q).Some?
    ensures |RelativePath(fold, q).value| <= |q| && !DriveQualified(q)
  {
    SlashesKeep(q);
    ComponentsOfFolded(fold, '\\', false, q);
    PathNoLonger('\\', false, q);
  }

  /** What reading a path after the string check gives back of it. */
  lemma StrippedPathBack(fold: char -> string, p: string)
    requires Normal(fold, p) && RelativePath(fold, Strip(p)) == Some(p)
    ensures Strip(p) == p && !DriveQualified(p)
  {
    var q, r := Strip(p), Trim(p, 0, |p|);
    assert q == p[r.start..r.end];
    assert Folded(fold, q) && '/' !in q;
    hide Normal, RelativePath, Trim, Folded;
    ReadIsNoLonger(fold, q);
    assert r.start == 0 && r.end == |p|;
  }

  /** The guards that printing relative paths and reading them again must pass. */
  ghost predicate PathsKept(paths: seq<string>) {
    && Distinct(paths)
    && forall k :: 0 <= k < |paths| ==> |paths[k]| <= 1000 && Strip(paths[k]) == paths[k] && !DriveQualified(paths[k])
  }

  function ReadPaths(fold: char -> string, value: Json): Option<seq<string>> {
    var raw := Strings(value, 32, 1000);
    if raw.None? then None else RelativePaths(fold, raw.value)
  }

  lemma {:induction false} StringsAt(items: seq<Json>, maximum: nat, k: nat)
    requires StringsOf(items, maximum).Some? && k < |items|
    ensures items[k].Str? && StringsOf(items, maximum).value[k] == Strip(items[k].text) && |items[k].text| <= maximum
  {
    var n := |items| - 1;
    if k < n {
      StringsAt(items[..n], maximum, k);
    }
  }

  lemma PathsBack(fold: char -> string, paths: seq<string>)
    requires Folding(fold) && |paths| <= 32
    requires forall k :: 0 <= k < |paths| ==> Normal(fold, paths[k])
    ensures ReadPaths(fold, List(Texts(paths))) == Some(paths) <==> PathsKept(paths)
  {
    hide Normal, Folding;
    var texts := Texts(paths);
    if PathsKept(paths) {
      forall k | 0 <= k < |paths| ensures Clean(paths[k], 1000) && RelativePath(fold, paths[k]) == Some(paths[k]) {
        NormalNonEmpty(fold, paths[k]);
        NormalPathBack(fold, paths[k]);
      }
      CleanBack(paths, 1000);
      assert RelativePaths(fold, paths).value == paths;
    }
    if ReadPaths(fold, List(texts)) == Some(paths) {
      var raw := StringsOf(texts, 1000).value;
      forall k | 0 <= k < |paths| ensures raw[k] == paths[k] && |paths[k]| <= 1000 && !DriveQualified(paths[k]) {
        StringsAt(texts, 1000, k);
        StrippedPathBack(fold, paths[k]);
      }
      StringsAreClean(texts, 1000);
      assert raw == paths;
      assert forall k :: 0 <= k < |paths| ==> Clean(raw[k], 1000);
    }
  }

  lemma NormalNonEmpty(fold: char -> string, p: string)
    requires Normal(fold, p)
    ensures p != ""
  {
  }

  // ----- Extensions

  predicate IsLowerOrDigit(c: char) {
    'a' <= c <= 'z' || '0' <= c <= '9'
  }

  predicate ExtensionPattern(e: string) {
    && 2 <= |e| <= 17 && e[0] == '.' && IsLowerOrDigit(e[1])
    && forall k :: 2 <= k < |e| ==> IsLowerOrDigit(e[k]) || e[k] in "._+-"
  }

  predicate IdPattern(id: string) {
    && 1 <= |id| <= 64 && IsLowerOrDigit(id[0])
    && forall k :: 1 <= k < |id| ==> IsLowerOrDigit(id[k]) || id[k] in "_-"
  }

  function ReadExtensions(fold: char -> string, value: Json): Option<seq<string>> {
    var raw := Strings(value, 32, 16);
    if raw.None? then None else
      var folded := FoldParts(fold, raw.value);
      if forall k :: 0 <= k < |folded| ==> ExtensionPattern(folded[k]) then Some(folded) else None
  }

  lemma ExtensionKept(fold: char -> string, e: string)
    requires Folding(fold) && ExtensionPattern(e)
    ensures Strip(e) == e && FoldText(fold, e) == e
  {
    assert forall k :: 0 <= k < |e| ==> e[k] < '\U{80}' && Lower(e[k]) == e[k];
    assert Folded(fold, e);
    FoldOfFolded(fold, e);
    StripTight(e);
  }

  /** The guards for extensions: folding may have made two equal or one too long. */
  ghost predicate ExtensionsKept(es: seq<string>) {
    Distinct(es) && forall k :: 0 <= k < |es| ==> |es[k]| <= 16
  }

  lemma ExtensionsBack(fold: char -> string, es: seq<string>)
    requires Folding(fold) && |es| <= 32 && forall k :: 0 <= k < |es| ==> ExtensionPattern(es[k])
    ensures ReadExtensions(fold, List(Texts(es))) == Some(es) <==> ExtensionsKept(es)
  {
    hide Folding;
    forall k | 0 <= k < |es| ensures Strip(es[k]) == es[k] && FoldText(fold, es[k]) == es[k] {
      ExtensionKept(fold, es[k]);
    }
    assert FoldParts(fold, es) == es;
    if ExtensionsKept(es) {
      assert AllClean(es, 16);
      CleanBack(es, 16);
    }
    if StringsOf(Texts(es), 16).Some? {
      forall k | 0 <= k < |es| ensures StringsOf(Texts(es), 16).value[k] == es[k] && |es[k]| <= 16 {
        StringsAt(Texts(es), 16, k);
      }
      assert StringsOf(Texts(es), 16).value == es;
    }
  }

  // ----- The whole file

  predicate HasExactly(value: Json, keys: set<Field>) {
    value.Object? && value.fields.Keys == keys
  }

  const MATCH_KEYS := {Identifiers, Phrases, Keywords}
  const ANSWER_KEYS := {Guidance, Sections}
  const SECTION_KEYS := {Title, Guidance, Required}
  const SCOPE_KEYS := {Kind, RelativePathList, PathPrefixes}
  const RETRIEVAL_KEYS_1 := {Mode, PathPrefixes, Extensions, TemporalPolicy, MaxDocuments}
  const RETRIEVAL_KEYS_2 := {ScopeField, Mode, Extensions, TemporalPolicy, MaxDocuments}
  const TOP_KEYS := {
    SchemaVersion, Id, NameField, Description, Enabled, Priority, Match, Retrieval, BusinessContext,
    Answer, EvidencePolicy}

  function ReadMatch(value: Json): Option<MatchSpec> {
    if !HasExactly(value, MATCH_KEYS) then None else
      var ids := Strings(value.fields[Identifiers], 64, 256);
      var phrases := Strings(value.fields[Phrases], 64, 256);
      var keywords := Strings(value.fields[Keywords], 64, 256);
      if ids.None? || phrases.None? || keywords.None? then None
      else Some(MatchSpec(ids.value, phrases.value, keywords.value))
  }

  function PrintMatch(m: MatchSpec): Json {
    Object(map[Identifiers := List(Texts(m.identifiers)), Phrases := List(Texts(m.phrases)),
               Keywords := List(Texts(m.keywords))])
  }

  function ReadSection(value: Json): Option<Section> {
    if !HasExactly(value, SECTION_KEYS) || !value.fields[Required].Boolean? then None else
      var title := String(value.fields[Title], 120, false);
      var guidance := String(value.fields[Guidance], 500, true);
      if title.None? || guidance.None? then None
      else Some(Section(title.value, guidance.value, value.fields[Required].truth))
  }

  function PrintSection(s: Section): Json {
    Object(map[Title := Str(s.title), Guidance := Str(s.guidance), Required := Boolean(s.required)])
  }

  function ReadSections(items: seq<Json>): (r: Option<seq<Section>>)
    ensures r.Some? ==> |r.value| == |items|
  {
    if items == [] then Some([]) else
      var first := ReadSection(items[0]);
      var rest := ReadSections(items[1..]);
      if first.None? || rest.None? then None else Some([first.value] + rest.value)
  }

  function PrintSections(ss: seq<Section>): (r: seq<Json>)
    ensures |r| == |ss| && forall k :: 0 <= k < |ss| ==> r[k] == PrintSection(ss[k])
  {
    seq(|ss|, k requires 0 <= k < |ss| => PrintSection(ss[k]))
  }

  function ReadRetrieval(fold: char -> string, fields: map<Field, Json>, kind: string, paths: seq<string>, relative: seq<string>)
    : Option<RetrievalSpec>
    requires {Mode, TemporalPolicy, MaxDocuments, Extensions} <= fields.Keys
  {
    var mode, policy, most := fields[Mode], fields[TemporalPolicy], fields[MaxDocuments];
    var extensions := ReadExtensions(fold, fields[Extensions]);
    if mode != Str("prefer") && mode != Str("strict") then None
    else if policy != Str("recent_first") && policy != Str("all_history") then None
    else if !most.Integer? || !(16 <= most.number <= 48) then None
    else if extensions.None? then None
    else Some(RetrievalSpec(mode.text, paths, extensions.value, policy.text, most.number, kind, relative))
  }

  /** `_parse_common` */
  function ParseCommon(value: Json, version: int, retrieval: Option<RetrievalSpec>): Option<SkillSpec> {
    if !HasExactly(value, TOP_KEYS) || !HasExactly(value.fields[Answer], ANSWER_KEYS) then None else
      var f, answer := value.fields, value.fields[Answer].fields;
      var id := String(f[Id], 64, false);
      var matching := ReadMatch(f[Match]);
      var sections := if answer[Sections].List? && |answer[Sections].items| <= 8
                      then ReadSections(answer[Sections].items) else None;
      var name := String(f[NameField], 120, false);
      var description := String(f[Description], 1000, true);
      var business := String(f[BusinessContext], 2000, true);
      var guidance := String(answer[Guidance], 1500, true);
      if id.None? || !IdPattern(id.value) || !f[Enabled].Boolean? then None
      else if !f[Priority].Integer? || !(-1000 <= f[Priority].number <= 1000) then None
      else if matching.None? || retrieval.None? || sections.None? || f[EvidencePolicy] != Str("strict") then None
      else if name.None? || description.None? || business.None? || guidance.None? then None
      else Some(SkillSpec(version, id.value, name.value, description.value, f[Enabled].truth, f[Priority].number,
                          matching.value, retrieval.value, business.value, guidance.value, sections.value, "strict"))
  }

  function Retrieval1(fold: char -> string, retrieval: Json): Option<RetrievalSpec> {
    if !HasExactly(retrieval, RETRIEVAL_KEYS_1) then None else
      var paths := Strings(retrieval.fields[PathPrefixes], 32, 1000);
      if paths.None? then None else ReadRetrieval(fold, retrieval.fields, "absolute", paths.value, [])
  }

  /** The scope rules of version 2. */
  predicate ScopeAllowed(kind: string, paths: seq<string>, relative: seq<string>) {
    || (kind == "global" && paths == [] && relative == [])
    || (kind == "absolute" && paths != [] && relative == [])
    || (kind == "project_relative" && relative != [] && paths == [])
  }

  /** Of the two lists the one that the kind of scope names is given, and only that one. */
  lemma ScopeIs(kind: string, paths: seq<string>, relative: seq<string>)
    ensures ScopeAllowed(kind, paths, relative) <==>
            && kind in {"global", "absolute", "project_relative"}
            && (paths != [] <==> kind == "absolute") && (relative != [] <==> kind == "project_relative")
  {
    ScopeKinds();
  }

  lemma ScopeKinds()
    ensures "global" != "absolute" && "global" != "project_relative" && "absolute" != "project_relative"
  {
    assert |"global"| == 6 && |"absolute"| == 8 && |"project_relative"| == 16;
  }

  function Retrieval2(fold: char -> string, retrieval: Json): Option<RetrievalSpec> {
    if !HasExactly(retrieval, RETRIEVAL_KEYS_2) || !HasExactly(retrieval.fields[ScopeField], SCOPE_KEYS) then None else
      var scope := retrieval.fields[ScopeField].fields;
      var paths := Strings(scope[PathPrefixes], 32, 1000);
      var relative := ReadPaths(fold, scope[RelativePathList]);
      if !scope[Kind].Str? || paths.None? || relative.None? then None
      else if !ScopeAllowed(scope[Kind].text, paths.value, relative.value) then None
      else ReadRetrieval(fold, retrieval.fields, scope[Kind].text, paths.value, relative.value)
  }

  /** `parse_skill` */
  function ParseSkill(fold: char -> string, value: Json): Result<SkillSpec, SkillError> {
    if !value.Object? || SchemaVersion !in value.fields then Err(SchemaUnsupported) else
      var f := value.fields;
      var retrieval := if Retrieval in f then f[Retrieval] else Null;
      var version := f[SchemaVersion];
      if version != Integer(1) && version != Integer(2) then Err(SchemaUnsupported)
      else if version == Integer(2) && retrieval.Object? && ScopeField !in retrieval.fields then Err(SchemaUnsupported)
      else
        var spec := ParseCommon(value, version.number,
                                if version == Integer(1) then Retrieval1(fold, retrieval) else Retrieval2(fold, retrieval));
        if spec.None? then Err(SkillInvalid) else Ok(spec.value)
  }

  /** A file is of no known schema exactly when it has no version 1 or 2, or is of version 2 without a scope. */
  lemma UnsupportedIff(fold: char -> string, value: Json)
    ensures ParseSkill(fold, value) == Err(SchemaUnsupported) <==>
            !(value.Object? && SchemaVersion in value.fields
              && (value.fields[SchemaVersion] == Integer(1)
                  || (value.fields[SchemaVersion] == Integer(2)
                      && (Retrieval in value.fields && value.fields[Retrieval].Object? ==>
                            ScopeField in value.fields[Retrieval].fields))))
  {
    hide ParseCommon, Retrieval1, Retrieval2;
  }

  function PrintRetrieval(version: int, r: RetrievalSpec): Json {
    if version == 2 then
      Object(map[Mode := Str(r.mode), Extensions := List(Texts(r.extensions)),
                 TemporalPolicy := Str(r.temporalPolicy), MaxDocuments := Integer(r.maxDocuments),
                 ScopeField := Object(map[Kind := Str(r.scopeKind), RelativePathList := List(Texts(r.relativePaths)),
                                       PathPrefixes := List(Texts(r.pathPrefixes))])])
    else
      Object(map[Mode := Str(r.mode), PathPrefixes := List(Texts(r.pathPrefixes)),
                 Extensions := List(Texts(r.extensions)), TemporalPolicy := Str(r.temporalPolicy),
                 MaxDocuments := Integer(r.maxDocuments)])
  }

  /** `to_dict`, as JSON */
  function ToDict(s: SkillSpec): Json {
    Object(map[SchemaVersion := Integer(s.version), Id := Str(s.id), NameField := Str(s.name),
               Description := Str(s.description), Enabled := Boolean(s.enabled), Priority := Integer(s.priority),
               Match := PrintMatch(s.matching), Retrieval := PrintRetrieval(s.version, s.retrieval),
               BusinessContext := Str(s.businessContext),
               Answer := Object(map[Guidance := Str(s.guidance), Sections := List(PrintSections(s.sections))]),
               EvidencePolicy := Str(s.evidencePolicy)])
  }

  // ----- What the parser guarantees

  predicate Trimmed(s: string, maximum: nat) {
    |s| <= maximum && Strip(s) == s
  }

  predicate CleanList(ss: seq<string>, count: nat, maximum: nat) {
    |ss| <= count && Distinct(ss) && AllClean(ss, maximum)
  }

  predicate MatchBounds(m: MatchSpec) {
    CleanList(m.identifiers, 64, 256) && CleanList(m.phrases, 64, 256) && CleanList(m.keywords, 64, 256)
  }

  predicate SectionBounds(s: Section) {
    Clean(s.title, 120) && Trimmed(s.guidance, 500)
  }

  ghost predicate RetrievalBounds(fold: char -> string, version: int, r: RetrievalSpec) {
    && r.mode in {"prefer", "strict"} && r.temporalPolicy in {"recent_first", "all_history"}
    && 16 <= r.maxDocuments <= 48
    && |r.extensions| <= 32 && (forall k :: 0 <= k < |r.extensions| ==> ExtensionPattern(r.extensions[k]))
    && CleanList(r.pathPrefixes, 32, 1000)
    && |r.relativePaths| <= 32 && (forall k :: 0 <= k < |r.relativePaths| ==> Normal(fold, r.relativePaths[k]))
    && (version == 1 ==> r.scopeKind == "absolute" && r.relativePaths == [])
    && (version == 2 ==> ScopeAllowed(r.scopeKind, r.pathPrefixes, r.relativePaths))
  }

  ghost predicate Bounds(fold: char -> string, s: SkillSpec) {
    && s.version in {1, 2}
    && IdPattern(s.id) && Clean(s.name, 120) && Trimmed(s.description, 1000)
    && -1000 <= s.priority <= 1000
    && MatchBounds(s.matching) && RetrievalBounds(fold, s.version, s.retrieval)
    && Trimmed(s.businessContext, 2000) && Trimmed(s.guidance, 1500)
    && |s.sections| <= 8 && (forall k :: 0 <= k < |s.sections| ==> SectionBounds(s.sections[k]))
    && s.evidencePolicy == "strict"
  }

  lemma StringTrimmed(value: Json, maximum: nat, empty: bool)
    requires String(value, maximum, empty).Some?
    ensures Trimmed(String(value, maximum, empty).value, maximum)
  {
    StripTwice(value.text);
  }

  lemma StringsClean(value: Json, count: nat, maximum: nat)
    requires Strings(value, count, maximum).Some?
    ensures CleanList(Strings(value, count, maximum).value, count, maximum)
  {
    StringsAreClean(value.items, maximum);
  }

  lemma MatchBounded(value: Json)
    requires ReadMatch(value).Some?
    ensures MatchBounds(ReadMatch(value).value)
  {
    StringsClean(value.fields[Identifiers], 64, 256);
    StringsClean(value.fields[Phrases], 64, 256);
    StringsClean(value.fields[Keywords], 64, 256);
  }

  lemma {:induction false} SectionsBounded(items: seq<Json>, k: nat)
    requires ReadSections(items).Some? && k < |items|
    ensures SectionBounds(ReadSections(items).value[k])
  {
    if k == 0 {
      StringTrimmed(items[0].fields[Title], 120, false);
      StringTrimmed(items[0].fields[Guidance], 500, true);
    } else {
      SectionsBounded(items[1..], k - 1);
    }
  }

  lemma PathsNormal(fold: char -> string, value: Json)
    requires Folding(fold) && ReadPaths(fold, value).Some?
    ensures var paths := ReadPaths(fold, value).value;
            |paths| <= 32 && forall k :: 0 <= k < |paths| ==> Normal(fold, paths[k])
  {
    hide Folding, Normal;
    var raw := Strings(value, 32, 1000).value;
    forall k | 0 <= k < |raw| ensures Normal(fold, ReadPaths(fold, value).value[k]) {
      RelativePathNormal(fold, raw[k]);
    }
  }

  lemma Retrieval1Bounded(fold: char -> string, retrieval: Json)
    requires Retrieval1(fold, retrieval).Some?
    ensures RetrievalBounds(fold, 1, Retrieval1(fold, retrieval).value)
  {
    StringsClean(retrieval.fields[PathPrefixes], 32, 1000);
  }

  lemma Retrieval2Bounded(fold: char -> string, retrieval: Json)
    requires Folding(fold) && Retrieval2(fold, retrieval).Some?
    ensures RetrievalBounds(fold, 2, Retrieval2(fold, retrieval).value)
  {
    hide Folding, Normal;
    var scope := retrieval.fields[ScopeField].fields;
    StringsClean(scope[PathPrefixes], 32, 1000);
    PathsNormal(fold, scope[RelativePathList]);
  }

  /** Every Skill the parser accepts meets the declared bounds and the scope rules. */
  lemma ParsedBounds(fold: char -> string, value: Json)
    requires Folding(fold) && ParseSkill(fold, value).Ok?
    ensures Bounds(fold, ParseSkill(fold, value).value)
  {
    hide Folding, Retrieval1, Retrieval2, ReadMatch, ReadSections, String, RetrievalBounds, MatchBounds, SectionBounds, Strip;
    var f, answer := value.fields, value.fields[Answer].fields;
    if f[SchemaVersion] == Integer(1) {
      Retrieval1Bounded(fold, f[Retrieval]);
    } else {
      Retrieval2Bounded(fold, f[Retrieval]);
    }
    MatchBounded(f[Match]);
    forall k | 0 <= k < |answer[Sections].items| ensures SectionBounds(ReadSections(answer[Sections].items).value[k]) {
      SectionsBounded(answer[Sections].items, k);
    }
    StringTrimmed(f[NameField], 120, false);
    StringTrimmed(f[Description], 1000, true);
    StringTrimmed(f[BusinessContext], 2000, true);
    StringTrimmed(answer[Guidance], 1500, true);
  }

  // ----- The round trip

  lemma TrimmedBack(s: string, maximum: nat)
    requires Trimmed(s, maximum)
    ensures String(Str(s), maximum, true) == Some(s)
    ensures s != "" ==> String(Str(s), maximum, false) == Some(s)
  {
  }

  lemma IdBack(id: string)
    requires IdPattern(id)
    ensures String(Str(id), 64, false) == Some(id)
  {
    StripTight(id);
  }

  lemma CleanListBack(ss: seq<string>, count: nat, maximum: nat)
    requires CleanList(ss, count, maximum)
    ensures Strings(List(Texts(ss)), count, maximum) == Some(ss)
  {
    CleanBack(ss, maximum);
  }

  lemma MatchBack(m: MatchSpec)
    requires MatchBounds(m)
    ensures ReadMatch(PrintMatch(m)) == Some(m)
  {
    hide CleanList, Strings, Texts;
    CleanListBack(m.identifiers, 64, 256);
    CleanListBack(m.phrases, 64, 256);
    CleanListBack(m.keywords, 64, 256);
    var f := PrintMatch(m).fields;
    assert f.Keys == MATCH_KEYS;
    assert f[Identifiers] == List(Texts(m.identifiers)) && f[Phrases] == List(Texts(m.phrases))
      && f[Keywords] == List(Texts(m.keywords));
  }

  lemma SectionBack(s: Section)
    requires SectionBounds(s)
    ensures ReadSection(PrintSection(s)) == Some(s)
  {
    hide Strip;
    TrimmedBack(s.title, 120);
    TrimmedBack(s.guidance, 500);
    hide String;
    var f := PrintSection(s).fields;
    assert f.Keys == SECTION_KEYS;
    assert f[Title] == Str(s.title) && f[Guidance] == Str(s.guidance) && f[Required] == Boolean(s.required);
  }

  lemma ReadSectionsStep(items: seq<Json>, first: Section, rest: seq<Section>)
    requires items != [] && ReadSection(items[0]) == Some(first) && ReadSections(items[1..]) == Some(rest)
    ensures ReadSections(items) == Some([first] + rest)
  {
    hide ReadSection;
  }

  lemma {:induction false} SectionsBack(ss: seq<Section>)
    requires forall k :: 0 <= k < |ss| ==> SectionBounds(ss[k])
    ensures ReadSections(PrintSections(ss)) == Some(ss)
  {
    if ss != [] {
      SectionBack(ss[0]);
      hide SectionBounds, ReadSection, PrintSection, ReadSections;
      var rest, items := ss[1..], PrintSections(ss);
      SectionsBack(rest);
      assert items[0] == PrintSection(ss[0]) && items[1..] == PrintSections(rest);
      ReadSectionsStep(items, ss[0], rest);
      assert ss == [ss[0]] + rest;
    }
  }

  /** The guards under which a parsed Skill survives being printed and parsed again. */
  ghost predicate Kept(r: RetrievalSpec) {
    ExtensionsKept(r.extensions) && PathsKept(r.relativePaths)
  }

  /** The members both versions print alike. */
  predicate SharedFields(f: map<Field, Json>, r: RetrievalSpec) {
    && {Mode, TemporalPolicy, MaxDocuments, Extensions} <= f.Keys
    && f[Mode] == Str(r.mode) && f[TemporalPolicy] == Str(r.temporalPolicy)
    && f[MaxDocuments] == Integer(r.maxDocuments) && f[Extensions] == List(Texts(r.extensions))
  }

  lemma PrintedRetrieval(r: RetrievalSpec)
    ensures PrintRetrieval(1, r).Object? && PrintRetrieval(2, r).Object?
    ensures var f := PrintRetrieval(1, r).fields;
            f.Keys == RETRIEVAL_KEYS_1 && SharedFields(f, r) && f[PathPrefixes] == List(Texts(r.pathPrefixes))
    ensures var f := PrintRetrieval(2, r).fields;
            && f.Keys == RETRIEVAL_KEYS_2 && SharedFields(f, r)
            && HasExactly(f[ScopeField], SCOPE_KEYS)
            && f[ScopeField].fields[Kind] == Str(r.scopeKind)
            && f[ScopeField].fields[RelativePathList] == List(Texts(r.relativePaths))
            && f[ScopeField].fields[PathPrefixes] == List(Texts(r.pathPrefixes))
  {
    hide Texts;
  }

  lemma SharedBack(fold: char -> string, f: map<Field, Json>, r: RetrievalSpec, version: int)
    requires Folding(fold) && RetrievalBounds(fold, version, r) && SharedFields(f, r)
    ensures var back := ReadRetrieval(fold, f, r.scopeKind, r.pathPrefixes, r.relativePaths);
            back == Some(r) <==> ExtensionsKept(r.extensions)
  {
    ExtensionsBack(fold, r.extensions);
    hide Folding, Normal, CleanList, Texts, ReadExtensions, ExtensionsKept, ExtensionPattern;
  }

  lemma RetrievalBack1(fold: char -> string, r: RetrievalSpec)
    requires Folding(fold) && RetrievalBounds(fold, 1, r)
    ensures Retrieval1(fold, PrintRetrieval(1, r)) == Some(r) <==> Kept(r)
  {
    assert PathsKept(r.relativePaths);
    PrintedRetrieval(r);
    hide PrintRetrieval, Strings, Texts;
    SharedBack(fold, PrintRetrieval(1, r).fields, r, 1);
    CleanListBack(r.pathPrefixes, 32, 1000);
    hide Folding, RetrievalBounds, ExtensionsKept, PathsKept, SharedFields;
    assert r.scopeKind == "absolute" && r.relativePaths == [];
  }

  lemma RetrievalBack2(fold: char -> string, r: RetrievalSpec)
    requires Folding(fold) && RetrievalBounds(fold, 2, r)
    ensures Retrieval2(fold, PrintRetrieval(2, r)) == Some(r) <==> Kept(r)
  {
    assert ScopeAllowed(r.scopeKind, r.pathPrefixes, r.relativePaths);
    PathsBack(fold, r.relativePaths);
    PrintedRetrieval(r);
    hide PrintRetrieval, Strings, Texts, ReadPaths;
    SharedBack(fold, PrintRetrieval(2, r).fields, r, 2);
    CleanListBack(r.pathPrefixes, 32, 1000);
    hide Folding, RetrievalBounds, ExtensionsKept, PathsKept, SharedFields, ScopeAllowed;
  }

  /**
   * A Skill within the bounds parses back from its own printed form exactly when its extensions are distinct
   * and no longer than sixteen characters and its relative paths are distinct, no longer than a thousand
   * characters, without outer white space and not drive-qualified.
   */
  lemma RoundTrip(fold: char -> string, s: SkillSpec)
    requires Folding(fold) && Bounds(fold, s)
    ensures ParseSkill(fold, ToDict(s)) == Ok(s) <==> Kept(s.retrieval)
  {
    hide Folding, Retrieval1, Retrieval2, RetrievalBounds, Kept, ParseCommon, ToDict, PrintRetrieval, IdPattern, Clean, Trimmed,
      MatchBounds, SectionBounds;
    if s.version == 1 {
      RetrievalBack1(fold, s.retrieval);
    } else {
      RetrievalBack2(fold, s.retrieval);
    }
    var value := ToDict(s);
    PrintedFields(s);
    PrintedRetrieval(s.retrieval);
    assert ScopeField in RETRIEVAL_KEYS_2;
    var r := if s.version == 1 then Retrieval1(fold, value.fields[Retrieval]) else Retrieval2(fold, value.fields[Retrieval]);
    CommonBack(fold, s, r);
  }

  lemma PrintedFields(s: SkillSpec)
    ensures ToDict(s).Object?
    ensures var f := ToDict(s).fields;
            && f.Keys == TOP_KEYS
            && f[SchemaVersion] == Integer(s.version) && f[Id] == Str(s.id) && f[NameField] == Str(s.name)
            && f[Description] == Str(s.description) && f[Enabled] == Boolean(s.enabled) && f[Priority] == Integer(s.priority)
            && f[Match] == PrintMatch(s.matching) && f[Retrieval] == PrintRetrieval(s.version, s.retrieval)
            && f[BusinessContext] == Str(s.businessContext) && f[EvidencePolicy] == Str(s.evidencePolicy)
            && f[Answer].Object? && f[Answer].fields.Keys == ANSWER_KEYS
            && f[Answer].fields[Guidance] == Str(s.guidance) && f[Answer].fields[Sections] == List(PrintSections(s.sections))
  {
    hide PrintMatch, PrintRetrieval, PrintSections;
  }

  /** The members outside `retrieval` always survive, so the whole survives exactly when that one does. */
  lemma CommonBack(fold: char -> string, s: SkillSpec, r: Option<RetrievalSpec>)
    requires Bounds(fold, s)
    ensures ParseCommon(ToDict(s), s.version, r) == Some(s) <==> r == Some(s.retrieval)
    ensures r.Some? ==> ParseCommon(ToDict(s), s.version, r) == Some(s.(retrieval := r.value))
  {
    hide ToDict, ReadMatch, ReadSections, String, RetrievalBounds, MatchBounds, SectionBounds, PrintMatch,
      PrintSections, PrintRetrieval;
    PrintedFields(s);
    IdBack(s.id);
    MatchBack(s.matching);
    SectionsBack(s.sections);
    TrimmedBack(s.name, 120);
    TrimmedBack(s.description, 1000);
    TrimmedBack(s.businessContext, 2000);
    TrimmedBack(s.guidance, 1500);
    hide IdPattern, Strip;
  }

  /** Two extensions that fold to the same one are both accepted, and then printed twice the same. */
  lemma CaseVariantsCollide(fold: char -> string, a: string, b: string)
    requires a != b && Clean(a, 16) && Clean(b, 16)
    requires FoldText(fold, a) == FoldText(fold, b) && ExtensionPattern(FoldText(fold, a))
    ensures var e := FoldText(fold, a);
            ReadExtensions(fold, List(Texts([a, b]))) == Some([e, e]) && !ExtensionsKept([e, e])
  {
    var e := FoldText(fold, a);
    CleanBack([a, b], 16);
    hide FoldText, ExtensionPattern, StringsOf;
    assert FoldParts(fold, [a, b]) == [e, e];
    assert [e, e][0] == [e, e][1];
  }

  /** A drive behind a leading separator is accepted, and then printed in a form that is refused. */
  lemma DriveBehindSeparator(fold: char -> string, p: string)
    requires Normal(fold, p) && DriveQualified(p)
    ensures RelativePath(fold, "\\" + p) == Some(p) && RelativePath(fold, p) == None
  {
    var s := "\\" + p;
    assert Slashes(s) == s;
    assert s[1..] == p;
    assert Parts(s) == Parts(p);
    assert s[..2][1] == p[0];
    ComponentsOfFolded(fold, '\\', false, p);
  }
}
