/**
 * `DirectoryWatcher.compileFilter`: a glob filter such as `foo/**/*.json`
 * becomes an anchored Java regex. The glob is split into pieces on `/`,
 * `|` and `\`; a `**` piece becomes `.*?` and swallows the separator that
 * would follow it; in any other piece `.` is escaped, `?` becomes `.` and
 * `*` becomes `[^sep]*?`; the pieces are joined with the separator.
 */
module Glob {
  import opened Regex
  import opened Seqs

  /** The characters of the class `[/|\\]` that `String.split` splits filters on. */
  predicate IsSplitter(c: char) {
    c == '/' || c == '|' || c == '\\'
  }

  predicate NoSplitter(s: string) {
    forall i :: 0 <= i < |s| ==> !IsSplitter(s[i])
  }

  /** Every piece between splitters, empty ones included. */
  function Pieces(s: string): (r: seq<string>)
    ensures |r| >= 1
  {
    if s == [] then [""]
    else
      var rest := Pieces(s[1..]);
      if IsSplitter(s[0]) then [""] + rest
      else [[s[0]] + rest[0]] + rest[1..]
  }

  /** `String.split` with limit 0 drops the empty pieces at the end. */
  function DropTrailingEmpty(ps: seq<string>): (r: seq<string>)
    ensures |r| <= |ps| && r == ps[..|r|]
    ensures r != [] ==> r[|r| - 1] != ""
    ensures forall i :: |r| <= i < |ps| ==> ps[i] == ""
  {
    if ps != [] && ps[|ps| - 1] == "" then DropTrailingEmpty(ps[..|ps| - 1]) else ps
  }

  /**
   * `s.split("[/|\\\\]")`: when nothing matches, Java returns the input
   * itself (so `""` gives `[""]`); otherwise the pieces without the
   * trailing empty ones.
   */
  function Split(s: string): seq<string> {
    if NoSplitter(s) then [s] else DropTrailingEmpty(Pieces(s))
  }

  /** A trailing `/` or `\` stands for "this directory and everything below it". */
  function Expand(filter: string): string {
    if |filter| > 0 && (filter[|filter| - 1] == '/' || filter[|filter| - 1] == '\\') then filter + "**"
    else filter
  }

  /** `String.replace` with a one-character target: every occurrence of `c` becomes `t`. */
  function Replace(s: string, c: char, t: string): string {
    if s == [] then [] else (if s[0] == c then t else [s[0]]) + Replace(s[1..], c, t)
  }

  function StarClass(sep: char): string {
    "[^" + [sep] + "]*?"
  }

  /** A piece other than `**`, after the three `replace` calls, in source order. */
  function TranslatePiece(p: string, sep: char): string {
    Replace(Replace(Replace(p, '.', "\\."), '?', "."), '*', StarClass(sep))
  }

  /** What the loop appends for one piece. */
  function Emit(p: string, sep: char): string {
    if p == "**" then ".*?" else TranslatePiece(p, sep)
  }

  /** The separator written after piece `prev` when another piece follows: none after `**`. */
  function Gap(prev: string, sep: char): string {
    if prev == "**" then "" else [sep]
  }

  /** The text between `^` and `$` for the pieces `subs`, built piece by piece as the loop does. */
  function CompiledBody(subs: seq<string>, sep: char): string {
    if subs == [] then ""
    else
      var n := |subs|;
      CompiledBody(subs[..n - 1], sep) + (if n > 1 then Gap(subs[n - 2], sep) else "") + Emit(subs[n - 1], sep)
  }

  /** The regex text `compileFilter(filter)` passes to `Pattern.compile`. */
  function Compiled(filter: string, sep: char): (r: string)
    ensures |r| >= 2 && r[0] == '^' && r[|r| - 1] == '$'
  {
    "^" + CompiledBody(Split(Expand(filter)), sep) + "$"
  }

  /** `compileFilter`: the StringBuilder loop with its `appendDelimiter` flag. */
  method CompileFilter(filter: string, sep: char) returns (pattern: string)
    ensures pattern == Compiled(filter, sep)
  {
    var f := filter;
    if |f| > 0 && (f[|f| - 1] == '/' || f[|f| - 1] == '\\') {
      f := f + "**";
    }
    assert f == Expand(filter);
    var subs := Split(f);
    pattern := "^";
    var appendDelimiter := false;
    var i := 0;
    while i < |subs|
      invariant 0 <= i <= |subs|
      invariant pattern == "^" + CompiledBody(subs[..i], sep)
      invariant appendDelimiter == (i > 0 && subs[i - 1] != "**")
    {
      var sub := subs[i];
      ghost var before := pattern;
      if appendDelimiter {
        pattern := pattern + [sep];
      } else {
        appendDelimiter := true;
      }
      if sub == "**" {
        pattern := pattern + ".*?";
        appendDelimiter := false;
      } else {
        pattern := pattern + TranslatePiece(sub, sep);
      }
      ghost var gap := if i > 0 then Gap(subs[i - 1], sep) else "";
      ghost var done := CompiledBody(subs[..i], sep);
      assert pattern == "^" + done + gap + Emit(sub, sep);
      CompiledBodyStep(subs, i, sep);
      AppendAssoc("^", done, gap, Emit(sub, sep));
      i := i + 1;
    }
    assert subs[..i] == subs;
    pattern := pattern + "$";
  }

  /** One more piece: the text so far, its gap, then the piece's own text. */
  lemma CompiledBodyStep(subs: seq<string>, i: nat, sep: char)
    requires i < |subs|
    ensures CompiledBody(subs[..i + 1], sep) ==
      CompiledBody(subs[..i], sep) + (if i > 0 then Gap(subs[i - 1], sep) else "") + Emit(subs[i], sep)
  {
    var t := subs[..i + 1];
    assert t[..i] == subs[..i];
  }

  // ---------------------------------------------------------------------
  // The same pattern as a sequence of regex fragments.

  function CharFrag(c: char, sep: char): Frag {
    if c == '?' then AnyChar else if c == '*' then RunWithout(sep) else Lit(c)
  }

  function PieceFrags(p: string, sep: char): seq<Frag> {
    if p == [] then [] else [CharFrag(p[0], sep)] + PieceFrags(p[1..], sep)
  }

  function SegmentFrags(p: string, sep: char): seq<Frag> {
    if p == "**" then [AnyRun] else PieceFrags(p, sep)
  }

  /** Reference reading of the join: each piece, then a separator unless it is `**` or the last one. */
  function BodyFrags(subs: seq<string>, sep: char): seq<Frag> {
    if subs == [] then []
    else SegmentFrags(subs[0], sep) + (if |subs| > 1 && subs[0] != "**" then [Lit(sep)] else []) + BodyFrags(subs[1..], sep)
  }

  /** The fragments of the compiled filter. */
  function Fragments(filter: string, sep: char): seq<Frag> {
    BodyFrags(Split(Expand(filter)), sep)
  }

  /** A filter character other than a splitter that the model covers: plain, or one of the wildcards and `.`. */
  predicate GlobChar(c: char) {
    IsPlain(c) || c == '.' || c == '?' || c == '*'
  }

  /** A filter built only from plain characters, splitters, `.`, `?` and `*`. */
  predicate PlainGlob(filter: string) {
    forall i :: 0 <= i < |filter| ==> GlobChar(filter[i]) || IsSplitter(filter[i])
  }

  // ---------------------------------------------------------------------
  // Lemmas about splitting.

  /** A string without splitters is one piece. */
  lemma {:induction false} PiecesOfPlain(s: string)
    requires NoSplitter(s)
    ensures Pieces(s) == [s]
  {
    if s != [] {
      assert NoSplitter(s[1..]) by {
        forall i | 0 <= i < |s[1..]| ensures !IsSplitter(s[1..][i]) { assert s[1..][i] == s[i + 1]; }
      }
      PiecesOfPlain(s[1..]);
      assert !IsSplitter(s[0]);
      assert [s[0]] + s[1..] == s;
    }
  }

  /** Splitting at one splitter: the pieces on its left, then those on its right. */
  lemma {:induction false} PiecesAround(a: string, c: char, b: string)
    requires IsSplitter(c)
    ensures Pieces(a + [c] + b) == Pieces(a) + Pieces(b)
  {
    if a == [] {
      assert a + [c] + b == [c] + b;
      assert ([c] + b)[1..] == b;
    } else {
      assert (a + [c] + b)[1..] == a[1..] + [c] + b;
      PiecesAround(a[1..], c, b);
    }
  }

  /** Pieces hold only characters of the input, and never a splitter. */
  lemma {:induction false} PiecesChars(s: string)
    ensures forall i, j :: 0 <= i < |Pieces(s)| && 0 <= j < |Pieces(s)[i]| ==>
      Pieces(s)[i][j] in s && !IsSplitter(Pieces(s)[i][j])
  {
    if s != [] {
      PiecesChars(s[1..]);
    }
  }

  /** Every character of a split piece comes from the input and is not a splitter. */
  lemma SplitChars(s: string)
    ensures forall i, j :: 0 <= i < |Split(s)| && 0 <= j < |Split(s)[i]| ==>
      Split(s)[i][j] in s && !IsSplitter(Split(s)[i][j])
  {
    PiecesChars(s);
  }

  /** Joining pieces back with one separator character. */
  function JoinWith(ps: seq<string>, sep: char): string {
    if ps == [] then ""
    else if |ps| == 1 then ps[0]
    else ps[0] + [sep] + JoinWith(ps[1..], sep)
  }

  /** The input with every splitter written as `sep`. */
  function Normalize(s: string, sep: char): string {
    if s == [] then "" else [if IsSplitter(s[0]) then sep else s[0]] + Normalize(s[1..], sep)
  }

  /** Joining the pieces with `sep` gives back the input with each splitter read as `sep`. */
  lemma {:induction false} PiecesRoundTrip(s: string, sep: char)
    ensures JoinWith(Pieces(s), sep) == Normalize(s, sep)
  {
    if s != [] {
      PiecesRoundTrip(s[1..], sep);
      var rest := Pieces(s[1..]);
      if !IsSplitter(s[0]) && |rest| > 1 {
        assert ([[s[0]] + rest[0]] + rest[1..])[1..] == rest[1..];
      }
    }
  }

  // ---------------------------------------------------------------------
  // Lemmas about the compiled text.

  /** A trailing `/` or `\` compiles exactly as if `**` had been written after it. */
  lemma TrailingSeparator(filter: string, sep: char)
    requires |filter| > 0 && (filter[|filter| - 1] == '/' || filter[|filter| - 1] == '\\')
    ensures Compiled(filter, sep) == Compiled(filter + "**", sep)
  {
    var f := filter + "**";
    assert Expand(filter) == f;
    assert f[|f| - 1] == '*';
    assert Expand(f) == f;
  }

  /**
   * Joining two runs of pieces: the text of the left run, one separator
   * unless its last piece is `**`, then the text of the right run.
   */
  lemma {:induction false} CompiledBodyJoin(a: seq<string>, b: seq<string>, sep: char)
    requires a != [] && b != []
    ensures CompiledBody(a + b, sep) == CompiledBody(a, sep) + Gap(a[|a| - 1], sep) + CompiledBody(b, sep)
    decreases |b|
  {
    if |b| == 1 {
      JoinOne(a, b, sep);
    } else {
      CompiledBodyJoin(a, b[..|b| - 1], sep);
      JoinStep(a, b, sep);
    }
  }

  lemma JoinOne(a: seq<string>, b: seq<string>, sep: char)
    requires a != [] && |b| == 1
    ensures CompiledBody(a + b, sep) == CompiledBody(a, sep) + Gap(a[|a| - 1], sep) + CompiledBody(b, sep)
  {
    var ab := a + b;
    var m := |ab|;
    assert ab[..m - 1] == a && ab[m - 2] == a[|a| - 1] && ab[m - 1] == b[0];
    CompiledBodyLast(ab, sep);
    CompiledBodySingle(b, sep);
  }

  /** The join of `a` with `b` follows from the join of `a` with `b` less its last piece. */
  lemma JoinStep(a: seq<string>, b: seq<string>, sep: char)
    requires a != [] && |b| > 1
    requires CompiledBody(a + b[..|b| - 1], sep) == CompiledBody(a, sep) + Gap(a[|a| - 1], sep) + CompiledBody(b[..|b| - 1], sep)
    ensures CompiledBody(a + b, sep) == CompiledBody(a, sep) + Gap(a[|a| - 1], sep) + CompiledBody(b, sep)
  {
    var n := |b|;
    var ab := a + b;
    var m := |ab|;
    DropLastOfAppend(a, b);
    assert ab[m - 2] == b[n - 2] && ab[m - 1] == b[n - 1];
    CompiledBodyLast(ab, sep);
    CompiledBodyLast(b, sep);
    AppendAssoc5(CompiledBody(a, sep), Gap(a[|a| - 1], sep), CompiledBody(b[..n - 1], sep), Gap(b[n - 2], sep), Emit(b[n - 1], sep));
  }

  /** The text of a non-empty run of pieces ends with the gap and the text of its last piece. */
  lemma CompiledBodyLast(subs: seq<string>, sep: char)
    requires subs != []
    ensures CompiledBody(subs, sep) ==
      CompiledBody(subs[..|subs| - 1], sep) + (if |subs| > 1 then Gap(subs[|subs| - 2], sep) else "") + Emit(subs[|subs| - 1], sep)
  {
  }

  lemma CompiledBodySingle(subs: seq<string>, sep: char)
    requires |subs| == 1
    ensures CompiledBody(subs, sep) == Emit(subs[0], sep)
  {
    assert subs[..0] == [];
  }

  lemma {:induction false} ReplaceAppend(a: string, b: string, c: char, t: string)
    ensures Replace(a + b, c, t) == Replace(a, c, t) + Replace(b, c, t)
  {
    if a != [] {
      assert (a + b)[0] == a[0];
      assert (a + b)[1..] == a[1..] + b;
      ReplaceAppend(a[1..], b, c, t);
    } else {
      assert a + b == b;
    }
  }

  lemma {:induction false} ReplaceAbsent(s: string, c: char, t: string)
    requires forall i :: 0 <= i < |s| ==> s[i] != c
    ensures Replace(s, c, t) == s
  {
    if s != [] {
      ReplaceAbsent(s[1..], c, t);
    }
  }

  lemma {:induction false} TranslateAppend(a: string, b: string, sep: char)
    ensures TranslatePiece(a + b, sep) == TranslatePiece(a, sep) + TranslatePiece(b, sep)
  {
    ReplaceAppend(a, b, '.', "\\.");
    var a1, b1 := Replace(a, '.', "\\."), Replace(b, '.', "\\.");
    ReplaceAppend(a1, b1, '?', ".");
    ReplaceAppend(Replace(a1, '?', "."), Replace(b1, '?', "."), '*', StarClass(sep));
  }

  /**
   * The three `replace` calls act character by character: `.` becomes `\.`,
   * `?` becomes `.`, `*` becomes `[^sep]*?`, and every other character is
   * copied; no replacement is rewritten by a later one.
   */
  lemma {:induction false} TranslateRenders(p: string, sep: char)
    ensures TranslatePiece(p, sep) == Render(PieceFrags(p, sep))
  {
    if p != [] {
      assert p == [p[0]] + p[1..];
      TranslateAppend([p[0]], p[1..], sep);
      TranslateRenders(p[1..], sep);
      var c := p[0];
      assert Replace([c], c, "") == [];
      if c == '.' {
        assert Replace([c], '.', "\\.") == "\\.";
        ReplaceAbsent("\\.", '?', ".");
        ReplaceAbsent("\\.", '*', StarClass(sep));
      } else if c == '?' {
        assert Replace([c], '.', "\\.") == "?";
        assert Replace("?", '?', ".") == ".";
        assert Replace(".", '*', StarClass(sep)) == ".";
      } else if c == '*' {
        assert Replace([c], '.', "\\.") == "*";
        assert Replace("*", '?', ".") == "*";
        assert Replace("*", '*', StarClass(sep)) == StarClass(sep);
      } else {
        assert Replace([c], '.', "\\.") == [c];
        assert Replace([c], '?', ".") == [c];
        assert Replace([c], '*', StarClass(sep)) == [c];
      }
      assert PieceFrags(p, sep) == [CharFrag(c, sep)] + PieceFrags(p[1..], sep);
    }
  }

  lemma {:induction false} RenderAppend(a: seq<Frag>, b: seq<Frag>)
    ensures Render(a + b) == Render(a) + Render(b)
  {
    if a != [] {
      assert (a + b)[0] == a[0];
      assert (a + b)[1..] == a[1..] + b;
      RenderAppend(a[1..], b);
    } else {
      assert a + b == b;
    }
  }

  lemma SegmentRenders(p: string, sep: char)
    ensures Emit(p, sep) == Render(SegmentFrags(p, sep))
  {
    if p != "**" {
      TranslateRenders(p, sep);
    }
  }

  lemma {:induction false} BodyFragsSnoc(subs: seq<string>, q: string, sep: char)
    requires subs != []
    ensures BodyFrags(subs + [q], sep) ==
      BodyFrags(subs, sep) + (if subs[|subs| - 1] != "**" then [Lit(sep)] else []) + SegmentFrags(q, sep)
  {
    TailOfAppend(subs, [q]);
    if |subs| == 1 {
      assert subs[1..] == [];
      EmptyAppend(subs[1..], [q]);
      BodyFragsSingle(subs, sep);
      BodyFragsSingle([q], sep);
    } else {
      BodyFragsSnoc(subs[1..], q, sep);
      var gap := if subs[|subs| - 1] != "**" then [Lit(sep)] else [];
      assert subs[1..][|subs| - 2] == subs[|subs| - 1];
      AppendAssoc5(SegmentFrags(subs[0], sep), if subs[0] != "**" then [Lit(sep)] else [], BodyFrags(subs[1..], sep), gap, SegmentFrags(q, sep));
    }
  }

  lemma BodyFragsCons(subs: seq<string>, sep: char)
    requires |subs| > 1
    ensures BodyFrags(subs, sep) ==
      SegmentFrags(subs[0], sep) + (if subs[0] != "**" then [Lit(sep)] else []) + BodyFrags(subs[1..], sep)
  {
  }

  lemma BodyFragsSingle(subs: seq<string>, sep: char)
    requires |subs| == 1
    ensures BodyFrags(subs, sep) == SegmentFrags(subs[0], sep)
  {
    assert subs[1..] == [];
  }

  /** The string the loop builds is the text of the reference fragments (a `.` separator would be written escaped there). */
  lemma {:induction false} BodyRenders(subs: seq<string>, sep: char)
    requires sep != '.'
    ensures CompiledBody(subs, sep) == Render(BodyFrags(subs, sep))
  {
    if subs != [] {
      var n := |subs|;
      var init := subs[..n - 1];
      var q := subs[n - 1];
      SegmentRenders(q, sep);
      if n == 1 {
        CompiledBodySingle(subs, sep);
        BodyFragsSingle(subs, sep);
      } else {
        BodyRenders(init, sep);
        SplitLast(subs);
        BodyFragsSnoc(init, q, sep);
        var gap := if init[|init| - 1] != "**" then [Lit(sep)] else [];
        assert init[|init| - 1] == subs[n - 2];
        assert Render(gap) == Gap(subs[n - 2], sep);
        RenderAppend(BodyFrags(init, sep) + gap, SegmentFrags(q, sep));
        RenderAppend(BodyFrags(init, sep), gap);
        CompiledBodyLast(subs, sep);
      }
    }
  }

  /** `compileFilter(filter)` is `^`, the text of the fragments, then `$`. */
  lemma CompiledRenders(filter: string, sep: char)
    requires sep != '.'
    ensures Compiled(filter, sep) == "^" + Render(Fragments(filter, sep)) + "$"
  {
    BodyRenders(Split(Expand(filter)), sep);
  }

  lemma {:induction false} PieceFragsFit(p: string, sep: char)
    requires IsPlain(sep)
    requires forall j :: 0 <= j < |p| ==> GlobChar(p[j])
    ensures Renderable(PieceFrags(p, sep))
  {
    if p != [] {
      PieceFragsFit(p[1..], sep);
      assert Fits(CharFrag(p[0], sep));
    }
  }

  lemma {:induction false} BodyFragsFit(subs: seq<string>, sep: char)
    requires IsPlain(sep)
    requires forall i, j :: 0 <= i < |subs| && 0 <= j < |subs[i]| ==> GlobChar(subs[i][j])
    ensures Renderable(BodyFrags(subs, sep))
  {
    if subs != [] {
      PieceFragsFit(subs[0], sep);
      BodyFragsFit(subs[1..], sep);
    }
  }

  /** The fragments of a plain glob are written in the form the regex engine reads back. */
  lemma FragmentsFit(filter: string, sep: char)
    requires PlainGlob(filter) && IsPlain(sep)
    ensures Renderable(Fragments(filter, sep))
  {
    var f := Expand(filter);
    assert PlainGlob(f);
    SplitChars(f);
    BodyFragsFit(Split(f), sep);
  }

  /**
   * What the regex engine accepts for a compiled plain glob is what its
   * fragments accept.
   */
  lemma CompiledMatches(filter: string, sep: char, s: string)
    requires PlainGlob(filter) && IsPlain(sep)
    ensures Matches(Compiled(filter, sep), s) <==> MatchFrags(Fragments(filter, sep), s)
  {
    CompiledRenders(filter, sep);
    FragmentsFit(filter, sep);
    var r := Render(Fragments(filter, sep));
    assert ("^" + r + "$")[1..|r| + 1] == r;
    RenderedMatches(Fragments(filter, sep), s);
  }

  // ---------------------------------------------------------------------
  // Pieces without wildcards, and splitting a join.

  predicate NoWildcard(f: string) {
    forall i :: 0 <= i < |f| ==> f[i] != '*' && f[i] != '?'
  }

  lemma {:induction false} PiecesLast(s: string)
    requires s != [] && !IsSplitter(s[|s| - 1])
    ensures Pieces(s)[|Pieces(s)| - 1] != ""
  {
    if |s| > 1 {
      PiecesLast(s[1..]);
    }
  }

  /** When the input does not end in a splitter, `split` keeps every piece. */
  lemma SplitWhole(s: string)
    requires s == [] || !IsSplitter(s[|s| - 1])
    ensures Split(s) == Pieces(s)
  {
    if NoSplitter(s) {
      PiecesOfPlain(s);
    } else {
      PiecesLast(s);
    }
  }

  /** Each character of a piece gives one fragment, in order. */
  lemma {:induction false} PieceFragsEach(p: string, sep: char)
    ensures |PieceFrags(p, sep)| == |p|
    ensures forall i :: 0 <= i < |p| ==> PieceFrags(p, sep)[i] == CharFrag(p[i], sep)
  {
    if p != [] {
      PieceFragsEach(p[1..], sep);
    }
  }

  lemma {:induction false} PieceFragsLiteral(p: string, sep: char)
    requires NoWildcard(p)
    ensures PieceFrags(p, sep) == Literal(p)
  {
    if p != [] {
      PieceFragsLiteral(p[1..], sep);
    }
  }

  /** Pieces without wildcards give the literal fragments of the pieces joined by the separator. */
  lemma {:induction false} BodyFragsLiteral(subs: seq<string>, sep: char)
    requires forall i, j :: 0 <= i < |subs| && 0 <= j < |subs[i]| ==> subs[i][j] != '*' && subs[i][j] != '?'
    ensures BodyFrags(subs, sep) == Literal(JoinWith(subs, sep))
  {
    if subs != [] {
      var p := subs[0];
      assert |p| > 0 ==> p[0] != '*';
      assert p != "**";
      PieceFragsLiteral(p, sep);
      if |subs| == 1 {
        BodyFragsSingle(subs, sep);
      } else {
        var rest := subs[1..];
        BodyFragsLiteral(rest, sep);
        var j := JoinWith(rest, sep);
        LiteralAppend(p + [sep], j);
        LiteralAppend(p, [sep]);
        assert Literal([sep]) == [Lit(sep)];
      }
    }
  }

  lemma PiecesNoWildcard(f: string)
    requires NoWildcard(f)
    ensures forall i, j :: 0 <= i < |Pieces(f)| && 0 <= j < |Pieces(f)[i]| ==>
      Pieces(f)[i][j] != '*' && Pieces(f)[i][j] != '?'
  {
    PiecesChars(f);
    forall i, j | 0 <= i < |Pieces(f)| && 0 <= j < |Pieces(f)[i]|
      ensures Pieces(f)[i][j] != '*' && Pieces(f)[i][j] != '?'
    {
      var c := Pieces(f)[i][j];
      assert c in f;
      var k :| 0 <= k < |f| && f[k] == c;
    }
  }

  /** Splitting undoes joining with `/`, as long as no piece holds a splitter and the last one is not empty. */
  lemma {:induction false} PiecesOfJoin(ps: seq<string>)
    requires |ps| >= 1 && forall i :: 0 <= i < |ps| ==> NoSplitter(ps[i])
    ensures Pieces(JoinWith(ps, '/')) == ps
  {
    PiecesOfPlain(ps[0]);
    if |ps| > 1 {
      PiecesOfJoin(ps[1..]);
      PiecesAround(ps[0], '/', JoinWith(ps[1..], '/'));
      assert [ps[0]] + ps[1..] == ps;
    }
  }

  lemma SplitOfJoin(ps: seq<string>)
    requires |ps| >= 1 && forall i :: 0 <= i < |ps| ==> NoSplitter(ps[i])
    requires ps[|ps| - 1] != ""
    ensures Split(JoinWith(ps, '/')) == ps
  {
    PiecesOfJoin(ps);
    var j := JoinWith(ps, '/');
    if |ps| == 1 {
      assert Split(j) == ps;
    } else {
      assert j == ps[0] + ['/'] + JoinWith(ps[1..], '/');
      assert j[|ps[0]|] == '/';
    }
  }
}
