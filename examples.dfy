// The assertions of the filter tests. A watcher on the current directory,
// with `/` as the separator, is given one include or one exclude, and
// `shouldTrack` is asked about the paths `file`, `file.json`, `foo/file`,
// `foo/file.json` and `foo/bar/file.json` (and `foo` in one test).
//
// Each glob is held in a constant. For each one a predicate says in plain
// string terms which paths it stands for, and a lemma proves that the
// compiled filter matches exactly those. Each test lemma then states which
// of the test's paths `shouldTrack` accepts.
module FilterExamples {
  import opened Regex
  import opened Glob
  import opened Filters
  import opened Shapes

  const Foo := "foo"
  const Bar := "bar"
  const Json := ".json"

  const FileGlob := "file"
  const FileJsonGlob := "file.json"
  const FooFileJsonGlob := "foo/file.json"
  const StarGlob := "*"
  const StarStarGlob := "**"
  const JsonGlob := "*.json"
  const FooStarGlob := "foo/*"
  const FooStarStarGlob := "foo/**"
  const AnyFileJsonGlob := "**/file.json"
  const AnyJsonGlob := "**/*.json"
  const FooAnyJsonGlob := "foo/**/*.json"
  const BarJsonGlob := "bar/*.json"
  const AnyBarJsonGlob := "**/bar/*.json"
  const FooAnyBarJsonGlob := "foo/**/bar/*.json"
  const AnyFooAnyBarJsonGlob := "**/foo/**/bar/*.json"

  /** The pattern `include(f)` or `exclude(f)` adds, with `/` as the separator. */
  function Pattern(f: string): string {
    Compiled(f, '/')
  }

  /** The paths the filter tests ask about. */
  predicate IsTestPath(s: string) {
    s == "file" || s == "file.json" || s == "foo/file" || s == "foo/file.json" || s == "foo/bar/file.json"
  }

  // ---------------------------------------------------------------------
  // What each glob stands for, as a property of the path string.

  /** A name directly in the base directory. */
  predicate InBase(s: string) {
    '/' !in s
  }

  /** A name ending in `.json` directly in the base directory. */
  predicate JsonInBase(s: string) {
    |Json| <= |s| && s[|s| - |Json|..] == Json && InBase(s[..|s| - |Json|])
  }

  /** A path that starts with directory `d` and a separator. */
  predicate Within(d: string, s: string) {
    |d| < |s| && s[..|d| + 1] == d + "/"
  }

  predicate ChildOfFoo(s: string) {
    Within(Foo, s) && InBase(s[|Foo| + 1..])
  }

  predicate BelowFoo(s: string) {
    Within(Foo, s) && NoLineTerminator(s[|Foo| + 1..])
  }

  /** Any prefix without line terminators, then exactly `file.json`. */
  predicate EndsInFileJson(s: string) {
    exists k :: 0 <= k <= |s| && NoLineTerminator(s[..k]) && s[k..] == FileJsonGlob
  }

  predicate JsonAnywhere(s: string) {
    exists k :: 0 <= k <= |s| && NoLineTerminator(s[..k]) && JsonInBase(s[k..])
  }

  predicate JsonBelowFoo(s: string) {
    Within(Foo, s) && JsonAnywhere(s[|Foo| + 1..])
  }

  predicate JsonInBar(s: string) {
    Within(Bar, s) && JsonInBase(s[|Bar| + 1..])
  }

  predicate JsonInBarAnywhere(s: string) {
    exists k :: 0 <= k <= |s| && NoLineTerminator(s[..k]) && JsonInBar(s[k..])
  }

  predicate JsonInBarBelowFoo(s: string) {
    Within(Foo, s) && JsonInBarAnywhere(s[|Foo| + 1..])
  }

  predicate JsonInBarBelowFooAnywhere(s: string) {
    exists k :: 0 <= k <= |s| && NoLineTerminator(s[..k]) && JsonInBarBelowFoo(s[k..])
  }

  // ---------------------------------------------------------------------
  // Each compiled glob matches exactly what it stands for.

  predicate SlashOnly(f: string) {
    forall i :: 0 <= i < |f| ==> f[i] != '|' && f[i] != '\\'
  }

  /** With `/` as the separator, a wildcard-free glob holding no other splitter matches itself only. */
  lemma SlashLiteral(f: string, s: string)
    requires PlainGlob(f) && NoWildcard(f) && SlashOnly(f) && f != [] && f[|f| - 1] != '/'
    ensures Matches(Pattern(f), s) <==> s == f
  {
    NormalizeSlash(f);
    LiteralFilter(f, '/', s);
  }

  lemma StarReads(s: string)
    ensures Matches(Pattern(StarGlob), s) <==> InBase(s)
  {
    assert StarGlob == "*" + "";
    StarThen("", '/', s);
    assert s[..|s|] == s;
  }

  lemma StarStarReads(s: string)
    ensures Matches(Pattern(StarStarGlob), s) <==> NoLineTerminator(s)
  {
    AnyOnly('/', s);
  }

  /** Lower-case letters, dots, stars and separators: the alphabet of the test globs. */
  predicate TameGlob(f: string) {
    forall i :: 0 <= i < |f| ==> ('a' <= f[i] <= 'z') || f[i] == '.' || f[i] == '*' || f[i] == '/'
  }

  lemma TameIsPlain(f: string)
    requires TameGlob(f)
    ensures PlainGlob(f)
  {
    forall i | 0 <= i < |f| ensures GlobChar(f[i]) || IsSplitter(f[i]) {
      if 'a' <= f[i] <= 'z' {
        assert IsPlain(f[i]);
      }
    }
  }

  /** A test glob without stars is a literal, holding no splitter other than `/`. */
  lemma TameLiteral(f: string)
    requires TameGlob(f) && '*' !in f
    ensures PlainGlob(f) && NoWildcard(f) && SlashOnly(f)
    ensures '/' !in f ==> NoSplitter(f)
  {
    TameIsPlain(f);
  }

  /** The literal pieces of the test globs. */
  lemma PlainPieces()
    ensures PlainGlob(Json) && NoWildcard(Json) && NoSplitter(Json)
    ensures PlainGlob(FileJsonGlob) && NoWildcard(FileJsonGlob) && SlashOnly(FileJsonGlob)
    ensures PlainGlob(FileGlob) && NoWildcard(FileGlob) && SlashOnly(FileGlob)
    ensures PlainGlob(FooFileJsonGlob) && NoWildcard(FooFileJsonGlob) && SlashOnly(FooFileJsonGlob)
  {
    TameLiteral(Json);
    TameLiteral(FileJsonGlob);
    TameLiteral(FileGlob);
    TameLiteral(FooFileJsonGlob);
  }

  /** The globs whose paths all hold a `j`. */
  lemma JLetteredGlobs()
    ensures PlainGlob(AnyFileJsonGlob) && 'j' in AnyFileJsonGlob && PlainGlob(AnyJsonGlob) && 'j' in AnyJsonGlob
  {
    TameIsPlain(AnyFileJsonGlob);
    TameIsPlain(AnyJsonGlob);
    assert AnyFileJsonGlob[8] == 'j' && AnyJsonGlob[5] == 'j';
  }

  /** The globs whose paths all hold a `b`. */
  lemma BLetteredGlobs()
    ensures PlainGlob(AnyBarJsonGlob) && 'b' in AnyBarJsonGlob && PlainGlob(AnyFooAnyBarJsonGlob) && 'b' in AnyFooAnyBarJsonGlob
  {
    TameIsPlain(AnyBarJsonGlob);
    TameIsPlain(AnyFooAnyBarJsonGlob);
    assert AnyBarJsonGlob[3] == 'b' && AnyFooAnyBarJsonGlob[10] == 'b';
  }

  lemma JsonReads(s: string)
    ensures Matches(Pattern(JsonGlob), s) <==> JsonInBase(s)
  {
    assert JsonGlob == "*" + Json;
    PlainPieces();
    StarThen(Json, '/', s);
  }

  lemma FooStarReads(s: string)
    ensures Matches(Pattern(FooStarGlob), s) <==> ChildOfFoo(s)
  {
    assert FooStarGlob == Foo + "/" + StarGlob;
    DirectoryThen(Foo, StarGlob, '/', s);
    if |Foo| < |s| {
      StarReads(s[|Foo| + 1..]);
    }
  }

  lemma FooStarStarReads(s: string)
    ensures Matches(Pattern(FooStarStarGlob), s) <==> BelowFoo(s)
  {
    assert FooStarStarGlob == Foo + "/" + StarStarGlob;
    DirectoryThen(Foo, StarStarGlob, '/', s);
    if |Foo| < |s| {
      StarStarReads(s[|Foo| + 1..]);
    }
  }

  lemma AnyFileJsonReads(s: string)
    ensures Matches(Pattern(AnyFileJsonGlob), s) <==> EndsInFileJson(s)
  {
    assert AnyFileJsonGlob == "**/" + FileJsonGlob;
    AnyDirectoriesThen(FileJsonGlob, '/', s);
    PlainPieces();
    forall k | 0 <= k <= |s| ensures Matches(Pattern(FileJsonGlob), s[k..]) <==> s[k..] == FileJsonGlob {
      SlashLiteral(FileJsonGlob, s[k..]);
    }
  }

  lemma AnyJsonReads(s: string)
    ensures Matches(Pattern(AnyJsonGlob), s) <==> JsonAnywhere(s)
  {
    assert AnyJsonGlob == "**/" + JsonGlob;
    AnyDirectoriesThen(JsonGlob, '/', s);
    forall k | 0 <= k <= |s| ensures Matches(Pattern(JsonGlob), s[k..]) <==> JsonInBase(s[k..]) {
      JsonReads(s[k..]);
    }
  }

  lemma FooAnyJsonReads(s: string)
    ensures Matches(Pattern(FooAnyJsonGlob), s) <==> JsonBelowFoo(s)
  {
    assert FooAnyJsonGlob == Foo + "/" + AnyJsonGlob;
    DirectoryThen(Foo, AnyJsonGlob, '/', s);
    if |Foo| < |s| {
      AnyJsonReads(s[|Foo| + 1..]);
    }
  }

  lemma BarJsonReads(s: string)
    ensures Matches(Pattern(BarJsonGlob), s) <==> JsonInBar(s)
  {
    assert BarJsonGlob == Bar + "/" + JsonGlob;
    DirectoryThen(Bar, JsonGlob, '/', s);
    if |Bar| < |s| {
      JsonReads(s[|Bar| + 1..]);
    }
  }

  lemma AnyBarJsonReads(s: string)
    ensures Matches(Pattern(AnyBarJsonGlob), s) <==> JsonInBarAnywhere(s)
  {
    assert AnyBarJsonGlob == "**/" + BarJsonGlob;
    AnyDirectoriesThen(BarJsonGlob, '/', s);
    forall k | 0 <= k <= |s| ensures Matches(Pattern(BarJsonGlob), s[k..]) <==> JsonInBar(s[k..]) {
      BarJsonReads(s[k..]);
    }
  }

  lemma FooAnyBarJsonReads(s: string)
    ensures Matches(Pattern(FooAnyBarJsonGlob), s) <==> JsonInBarBelowFoo(s)
  {
    assert FooAnyBarJsonGlob == Foo + "/" + AnyBarJsonGlob;
    DirectoryThen(Foo, AnyBarJsonGlob, '/', s);
    if |Foo| < |s| {
      AnyBarJsonReads(s[|Foo| + 1..]);
    }
  }

  lemma AnyFooAnyBarJsonReads(s: string)
    ensures Matches(Pattern(AnyFooAnyBarJsonGlob), s) <==> JsonInBarBelowFooAnywhere(s)
  {
    assert AnyFooAnyBarJsonGlob == "**/" + FooAnyBarJsonGlob;
    AnyDirectoriesThen(FooAnyBarJsonGlob, '/', s);
    forall k | 0 <= k <= |s| ensures Matches(Pattern(FooAnyBarJsonGlob), s[k..]) <==> JsonInBarBelowFoo(s[k..]) {
      FooAnyBarJsonReads(s[k..]);
    }
  }

  /** A glob never matches a path that lacks one of its literal characters. */
  lemma Lacks(f: string, c: char, s: string)
    requires PlainGlob(f) && c in f && c != '*' && c != '?' && !IsSplitter(c) && c !in s
    ensures !Matches(Pattern(f), s)
  {
    FilterCharsOccur(f, '/', s, c);
  }

  // ---------------------------------------------------------------------
  // Which test paths have each property, reasoned on the strings alone.

  /** Lower-case letters, dots and separators: no line terminator among them. */
  predicate Tame(s: string) {
    forall i :: 0 <= i < |s| ==> ('a' <= s[i] <= 'z') || s[i] == '.' || s[i] == '/'
  }

  lemma TameOneLine(s: string)
    requires Tame(s)
    ensures NoLineTerminator(s)
  {
  }

  lemma TestPathsOneLine(s: string)
    requires IsTestPath(s) || s == Foo || s == "foo/" || s == "bar/"
    ensures NoLineTerminator(s)
  {
    TameOneLine(s);
  }

  lemma WithinFooOnTestPaths(s: string)
    requires IsTestPath(s) || s == Foo
    ensures Within(Foo, s) <==> s == "foo/file" || s == "foo/file.json" || s == "foo/bar/file.json"
  {
    if s == "foo/file" || s == "foo/file.json" || s == "foo/bar/file.json" {
      assert s[..4] == Foo + "/";
    } else if |s| >= 4 {
      assert s[..4][1] != (Foo + "/")[1];
    }
  }

  lemma InBaseOnTestPaths(s: string)
    requires IsTestPath(s)
    ensures InBase(s) <==> s == "file" || s == "file.json"
  {
    if s != "file" && s != "file.json" {
      assert s[3] == '/';
    }
  }

  lemma ChildOfFooOnTestPaths(s: string)
    requires IsTestPath(s)
    ensures ChildOfFoo(s) <==> s == "foo/file" || s == "foo/file.json"
  {
    WithinFooOnTestPaths(s);
    if s == "foo/file" || s == "foo/file.json" {
      assert s[4..] == "file" || s[4..] == "file.json";
    } else if s == "foo/bar/file.json" {
      assert s[4..][3] == '/';
    }
  }

  lemma BelowFooOnTestPaths(s: string)
    requires IsTestPath(s) || s == Foo
    ensures BelowFoo(s) <==> s == "foo/file" || s == "foo/file.json" || s == "foo/bar/file.json"
  {
    WithinFooOnTestPaths(s);
    TestPathsOneLine(s);
  }

  lemma JsonInBaseOnTestPaths(s: string)
    requires IsTestPath(s)
    ensures JsonInBase(s) <==> s == "file.json"
  {
    if s == "file.json" {
      assert s[4..] == Json && s[..4] == "file";
    } else if s == "foo/file" {
      assert s[3..][0] != Json[0];
    } else if s != "file" {
      assert s[..|s| - |Json|][3] == '/';
    }
  }

  lemma FileJsonInBase()
    ensures JsonInBase(FileJsonGlob)
  {
    JsonInBaseOnTestPaths(FileJsonGlob);
  }

  lemma EndsInFileJsonAfter(p: string)
    requires NoLineTerminator(p)
    ensures EndsInFileJson(p + FileJsonGlob)
  {
    var s := p + FileJsonGlob;
    assert s[..|p|] == p && s[|p|..] == FileJsonGlob;
  }

  lemma JsonAnywhereAfter(p: string)
    requires NoLineTerminator(p)
    ensures JsonAnywhere(p + FileJsonGlob)
  {
    var s := p + FileJsonGlob;
    assert s[..|p|] == p && s[|p|..] == FileJsonGlob;
    FileJsonInBase();
  }

  lemma JsonInBarAfter(p: string)
    requires NoLineTerminator(p)
    ensures JsonInBarAnywhere(p + (Bar + "/" + FileJsonGlob))
  {
    var t := Bar + "/" + FileJsonGlob;
    var s := p + t;
    assert s[..|p|] == p && s[|p|..] == t;
    assert t[..|Bar| + 1] == Bar + "/" && t[|Bar| + 1..] == FileJsonGlob;
    FileJsonInBase();
  }

  lemma JsonInBarBelowFooAfter(q: string)
    requires NoLineTerminator(q)
    ensures JsonInBarBelowFoo(Foo + "/" + (q + (Bar + "/" + FileJsonGlob)))
  {
    var t := q + (Bar + "/" + FileJsonGlob);
    var u := Foo + "/" + t;
    assert u[..|Foo| + 1] == Foo + "/" && u[|Foo| + 1..] == t;
    JsonInBarAfter(q);
  }

  /**
   * `**` followed by a separator compiles to `.*?` with no separator after
   * it, so `**` + `/file.json` also accepts a name that merely ends in
   * `file.json`.
   */
  lemma AnyFileJsonAcceptsLongerName()
    ensures Matches(Pattern(AnyFileJsonGlob), "xfile.json")
  {
    assert NoLineTerminator("x");
    EndsInFileJsonAfter("x");
    assert "x" + FileJsonGlob == "xfile.json";
    AnyFileJsonReads("xfile.json");
  }

  /** The three test paths that end in `file.json`, each as a prefix and that name. */
  lemma FileJsonPaths(s: string)
    requires s == "file.json" || s == "foo/file.json" || s == "foo/bar/file.json"
    ensures exists p :: NoLineTerminator(p) && s == p + FileJsonGlob
  {
    var p := s[..|s| - |FileJsonGlob|];
    TestPathsOneLine(s);
    assert s == p + FileJsonGlob;
  }

  lemma JsonBelowFooAfter(q: string)
    requires NoLineTerminator(q)
    ensures JsonBelowFoo(Foo + "/" + (q + FileJsonGlob))
  {
    var t := q + FileJsonGlob;
    var s := Foo + "/" + t;
    assert s[..|Foo| + 1] == Foo + "/" && s[|Foo| + 1..] == t;
    JsonAnywhereAfter(q);
  }

  /** The two test paths below `foo` that end in `file.json`. */
  lemma FooFileJsonPaths(s: string)
    requires s == "foo/file.json" || s == "foo/bar/file.json"
    ensures exists q :: NoLineTerminator(q) && s == Foo + "/" + (q + FileJsonGlob)
  {
    if s == "foo/file.json" {
      assert NoLineTerminator("");
      assert s == Foo + "/" + ("" + FileJsonGlob);
    } else {
      TestPathsOneLine("bar/");
      assert s == Foo + "/" + ("bar/" + FileJsonGlob);
    }
  }

  lemma BarFileJsonSpelled()
    ensures "foo/" + (Bar + "/" + FileJsonGlob) == "foo/bar/file.json"
  {
    assert Bar + "/" + FileJsonGlob == "bar/file.json";
  }

  lemma JsonInBarAnywhereHolds()
    ensures JsonInBarAnywhere("foo/bar/file.json")
  {
    TestPathsOneLine("foo/");
    JsonInBarAfter("foo/");
    BarFileJsonSpelled();
  }

  lemma FooBarFileJsonSpelled()
    ensures Foo + "/" + ([] + (Bar + "/" + FileJsonGlob)) == "foo/bar/file.json"
  {
    assert [] + (Bar + "/" + FileJsonGlob) == "bar/file.json";
  }

  lemma JsonInBarBelowFooAnywhereHolds()
    ensures JsonInBarBelowFooAnywhere("foo/bar/file.json")
  {
    var s := "foo/bar/file.json";
    assert NoLineTerminator([]);
    JsonInBarBelowFooAfter([]);
    FooBarFileJsonSpelled();
    assert s[..0] == [] && s[0..] == s;
  }

  // ---------------------------------------------------------------------
  // The tests.

  lemma Includes1(s: string)
    requires IsTestPath(s)
    ensures Tracked([Pattern(FileGlob)], [], s) <==> s == "file"
  {
    OneInclude(Pattern(FileGlob), s);
    PlainPieces();
    SlashLiteral(FileGlob, s);
  }

  lemma Includes2(s: string)
    requires IsTestPath(s)
    ensures Tracked([Pattern(FileJsonGlob)], [], s) <==> s == "file.json"
  {
    OneInclude(Pattern(FileJsonGlob), s);
    PlainPieces();
    SlashLiteral(FileJsonGlob, s);
  }

  lemma Includes3(s: string)
    requires IsTestPath(s)
    ensures Tracked([Pattern(JsonGlob)], [], s) <==> s == "file.json"
  {
    OneInclude(Pattern(JsonGlob), s);
    JsonReads(s);
    JsonInBaseOnTestPaths(s);
  }

  lemma Includes4(s: string)
    requires IsTestPath(s)
    ensures Tracked([Pattern(StarGlob)], [], s) <==> s == "file" || s == "file.json"
  {
    OneInclude(Pattern(StarGlob), s);
    StarReads(s);
    InBaseOnTestPaths(s);
  }

  lemma Includes5(s: string)
    requires IsTestPath(s)
    ensures Tracked([Pattern(StarStarGlob)], [], s)
  {
    OneInclude(Pattern(StarStarGlob), s);
    StarStarReads(s);
    TestPathsOneLine(s);
  }

  lemma Includes6(s: string)
    requires IsTestPath(s)
    ensures Tracked([Pattern(FooStarGlob)], [], s) <==> s == "foo/file" || s == "foo/file.json"
  {
    OneInclude(Pattern(FooStarGlob), s);
    FooStarReads(s);
    ChildOfFooOnTestPaths(s);
  }

  lemma Includes7(s: string)
    requires IsTestPath(s)
    ensures Tracked([Pattern(FooFileJsonGlob)], [], s) <==> s == "foo/file.json"
  {
    OneInclude(Pattern(FooFileJsonGlob), s);
    PlainPieces();
    SlashLiteral(FooFileJsonGlob, s);
  }

  /** The two test paths without a `j` match no glob ending in `.json`. */
  lemma LacksJ(s: string)
    requires s == "file" || s == "foo/file"
    ensures !Matches(Pattern(AnyFileJsonGlob), s) && !Matches(Pattern(AnyJsonGlob), s)
    ensures !Matches(Pattern(FooAnyJsonGlob), s)
  {
    JLetteredGlobs();
    Lacks(FooAnyJsonGlob, 'j', s);
    Lacks(AnyFileJsonGlob, 'j', s);
    Lacks(AnyJsonGlob, 'j', s);
  }

  /** The four test paths without a `b` match no glob naming directory `bar`. */
  lemma LacksB(s: string)
    requires IsTestPath(s) && s != "foo/bar/file.json"
    ensures !Matches(Pattern(AnyBarJsonGlob), s) && !Matches(Pattern(AnyFooAnyBarJsonGlob), s)
  {
    BLetteredGlobs();
    Lacks(AnyBarJsonGlob, 'b', s);
    Lacks(AnyFooAnyBarJsonGlob, 'b', s);
  }

  lemma Includes8(s: string)
    requires IsTestPath(s)
    ensures Tracked([Pattern(AnyFileJsonGlob)], [], s) <==> s == "file.json" || s == "foo/file.json" || s == "foo/bar/file.json"
  {
    OneInclude(Pattern(AnyFileJsonGlob), s);
    if s == "file.json" || s == "foo/file.json" || s == "foo/bar/file.json" {
      FileJsonPaths(s);
      var p :| NoLineTerminator(p) && s == p + FileJsonGlob;
      EndsInFileJsonAfter(p);
      AnyFileJsonReads(s);
    } else {
      LacksJ(s);
    }
  }

  lemma Includes9(s: string)
    requires IsTestPath(s)
    ensures Tracked([Pattern(AnyJsonGlob)], [], s) <==> s == "file.json" || s == "foo/file.json" || s == "foo/bar/file.json"
  {
    OneInclude(Pattern(AnyJsonGlob), s);
    if s == "file.json" || s == "foo/file.json" || s == "foo/bar/file.json" {
      FileJsonPaths(s);
      var p :| NoLineTerminator(p) && s == p + FileJsonGlob;
      JsonAnywhereAfter(p);
      AnyJsonReads(s);
    } else {
      LacksJ(s);
    }
  }

  lemma Includes10(s: string)
    requires IsTestPath(s) || s == Foo
    ensures Tracked([Pattern(FooStarStarGlob)], [], s) <==> s == "foo/file" || s == "foo/file.json" || s == "foo/bar/file.json"
  {
    OneInclude(Pattern(FooStarStarGlob), s);
    FooStarStarReads(s);
    BelowFooOnTestPaths(s);
  }

  lemma Includes11(s: string)
    requires IsTestPath(s)
    ensures Tracked([Pattern(FooAnyJsonGlob)], [], s) <==> s == "foo/file.json" || s == "foo/bar/file.json"
  {
    OneInclude(Pattern(FooAnyJsonGlob), s);
    if s == "foo/file.json" || s == "foo/bar/file.json" {
      FooFileJsonPaths(s);
      var q :| NoLineTerminator(q) && s == Foo + "/" + (q + FileJsonGlob);
      JsonBelowFooAfter(q);
      FooAnyJsonReads(s);
    } else if s == "foo/file" {
      LacksJ(s);
    } else {
      WithinFooOnTestPaths(s);
      FooAnyJsonReads(s);
    }
  }

  lemma Includes12(s: string)
    requires IsTestPath(s)
    ensures Tracked([Pattern(AnyBarJsonGlob)], [], s) <==> s == "foo/bar/file.json"
  {
    OneInclude(Pattern(AnyBarJsonGlob), s);
    if s == "foo/bar/file.json" {
      JsonInBarAnywhereHolds();
      AnyBarJsonReads(s);
    } else {
      LacksB(s);
    }
  }

  lemma Includes13(s: string)
    requires IsTestPath(s)
    ensures Tracked([Pattern(AnyFooAnyBarJsonGlob)], [], s) <==> s == "foo/bar/file.json"
  {
    OneInclude(Pattern(AnyFooAnyBarJsonGlob), s);
    if s == "foo/bar/file.json" {
      JsonInBarBelowFooAnywhereHolds();
      AnyFooAnyBarJsonReads(s);
    } else {
      LacksB(s);
    }
  }

  lemma Excludes1(s: string)
    requires IsTestPath(s)
    ensures !Tracked([], [Pattern(StarStarGlob)], s)
  {
    OneExclude(Pattern(StarStarGlob), s);
    StarStarReads(s);
    TestPathsOneLine(s);
  }

  lemma Excludes2(s: string)
    requires IsTestPath(s)
    ensures Tracked([], [Pattern(StarGlob)], s) <==> s == "foo/file" || s == "foo/file.json" || s == "foo/bar/file.json"
  {
    OneExclude(Pattern(StarGlob), s);
    StarReads(s);
    InBaseOnTestPaths(s);
  }

  lemma Excludes3(s: string)
    requires IsTestPath(s)
    ensures Tracked([], [Pattern(FooStarGlob)], s) <==> s == "file" || s == "file.json" || s == "foo/bar/file.json"
  {
    OneExclude(Pattern(FooStarGlob), s);
    FooStarReads(s);
    ChildOfFooOnTestPaths(s);
  }

  lemma Excludes4(s: string)
    requires IsTestPath(s)
    ensures Tracked([], [Pattern(FooStarStarGlob)], s) <==> s == "file" || s == "file.json"
  {
    OneExclude(Pattern(FooStarStarGlob), s);
    FooStarStarReads(s);
    BelowFooOnTestPaths(s);
  }
}
