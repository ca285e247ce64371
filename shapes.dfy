// What compiled filters of common shapes match, stated on the filter text:
// a filter without wildcards, `*` followed by a suffix, `**` alone, a
// leading directory, a leading `**/`, and the literal characters every
// matched path must contain. Each is proved from the fragment reading of
// `compileFilter` in module Glob.
module Shapes {
  import opened Wrappers
  import opened Regex
  import opened Glob
  import opened Seqs

  /** A filter without wildcards reads as the literal fragments of its normalised text. */
  lemma LiteralFragments(f: string, sep: char)
    requires NoWildcard(f)
    requires f == [] || !IsSplitter(f[|f| - 1])
    ensures Fragments(f, sep) == Literal(Normalize(f, sep))
  {
    assert Expand(f) == f;
    SplitWhole(f);
    PiecesNoWildcard(f);
    BodyFragsLiteral(Pieces(f), sep);
    PiecesRoundTrip(f, sep);
  }

  /**
   * A filter without wildcards (and not ending in a splitter) matches
   * exactly one string: itself, with each splitter read as the separator.
   */
  lemma LiteralFilter(f: string, sep: char, s: string)
    requires PlainGlob(f) && IsPlain(sep) && NoWildcard(f)
    requires f == [] || !IsSplitter(f[|f| - 1])
    ensures Matches(Compiled(f, sep), s) <==> s == Normalize(f, sep)
  {
    LiteralFragments(f, sep);
    CompiledMatches(f, sep, s);
    LiteralMatchesItself(Normalize(f, sep), s);
  }

  /** With `/` as the separator, a filter holding no other splitter is its own normal form. */
  lemma {:induction false} NormalizeSlash(f: string)
    requires forall i :: 0 <= i < |f| ==> f[i] != '|' && f[i] != '\\'
    ensures Normalize(f, '/') == f
  {
    if f != [] {
      NormalizeSlash(f[1..]);
    }
  }

  /** `**` alone matches every string without a line terminator, separators included. */
  lemma AnyOnly(sep: char, s: string)
    requires IsPlain(sep)
    ensures Matches(Compiled("**", sep), s) <==> NoLineTerminator(s)
  {
    var f := "**";
    assert Expand(f) == f;
    assert NoSplitter(f) && Split(f) == [f];
    assert BodyFrags([f], sep) == SegmentFrags(f, sep) + BodyFrags([f][1..], sep);
    assert Fragments(f, sep) == [AnyRun];
    CompiledMatches(f, sep, s);
    AnyRunMatches(s);
  }

  /**
   * `*` followed by a suffix `t` without wildcards or splitters: the
   * string ends in `t` and holds no separator before it. With `t` empty
   * this is `*` alone: any string without a separator.
   */
  lemma StarThen(t: string, sep: char, s: string)
    requires PlainGlob(t) && NoWildcard(t) && NoSplitter(t) && IsPlain(sep)
    ensures Matches(Compiled("*" + t, sep), s) <==>
      |t| <= |s| && s[|s| - |t|..] == t && sep !in s[..|s| - |t|]
  {
    var f := "*" + t;
    assert f[1..] == t;
    assert NoSplitter(f) by {
      forall i | 0 <= i < |f| ensures !IsSplitter(f[i]) {
        if i > 0 {
          assert f[i] == t[i - 1];
        }
      }
    }
    assert PlainGlob(f) by {
      forall i | 0 <= i < |f| ensures GlobChar(f[i]) || IsSplitter(f[i]) {
        if i > 0 {
          assert f[i] == t[i - 1];
        }
      }
    }
    assert Expand(f) == f;
    assert f != "**" by {
      if t != [] {
        assert f[1] == t[0];
      }
    }
    PieceFragsLiteral(t, sep);
    assert PieceFrags(f, sep) == [RunWithout(sep)] + Literal(t);
    assert Split(f) == [f];
    assert BodyFrags([f], sep) == SegmentFrags(f, sep) + BodyFrags([f][1..], sep);
    assert Fragments(f, sep) == [Run(Some(sep))] + Literal(t);
    CompiledMatches(f, sep, s);
    RunThenLiteral(Some(sep), t, s);
    if |t| <= |s| {
      var u := s[..|s| - |t|];
      assert Admitted(Some(sep), u) <==> sep !in u;
    }
  }

  /**
   * A leading directory `d` (no wildcards, no splitters) and a separator:
   * the path starts with `d` and one separator, and the rest of the filter
   * matches the rest of the path.
   */
  lemma DirectoryThen(d: string, g: string, sep: char, s: string)
    requires PlainGlob(d) && NoWildcard(d) && NoSplitter(d)
    requires PlainGlob(g) && g != [] && !IsSplitter(g[|g| - 1]) && IsPlain(sep)
    ensures Matches(Compiled(d + "/" + g, sep), s) <==>
      |d| < |s| && s[..|d| + 1] == d + [sep] && Matches(Compiled(g, sep), s[|d| + 1..])
  {
    var f := d + "/" + g;
    DirectoryFragments(d, g, sep);
    CompiledMatches(f, sep, s);
    LiteralThen(d + [sep], Fragments(g, sep), s);
    if |d| < |s| {
      CompiledMatches(g, sep, s[|d| + 1..]);
    }
  }

  /** The pieces of `d/g`: `d`, then those of `g`. */
  lemma DirectorySplit(d: string, g: string)
    requires PlainGlob(d) && NoWildcard(d) && NoSplitter(d)
    requires PlainGlob(g) && g != [] && !IsSplitter(g[|g| - 1])
    ensures PlainGlob(d + "/" + g)
    ensures Split(Expand(d + "/" + g)) == [d] + Split(Expand(g)) && Split(Expand(g)) != []
  {
    var f := d + "/" + g;
    assert f == d + ['/'] + g;
    assert f[|f| - 1] == g[|g| - 1];
    assert Expand(f) == f && Expand(g) == g;
    PlainGlobAppend(d, "/");
    PlainGlobAppend(d + "/", g);
    PiecesAround(d, '/', g);
    PiecesOfPlain(d);
    SplitWhole(f);
    SplitWhole(g);
  }

  /** The fragments of `d/g`: the directory and a separator as literals, then those of `g`. */
  lemma DirectoryFragments(d: string, g: string, sep: char)
    requires PlainGlob(d) && NoWildcard(d) && NoSplitter(d)
    requires PlainGlob(g) && g != [] && !IsSplitter(g[|g| - 1]) && IsPlain(sep)
    ensures PlainGlob(d + "/" + g)
    ensures Fragments(d + "/" + g, sep) == Literal(d + [sep]) + Fragments(g, sep)
  {
    DirectorySplit(d, g);
    var ps := Split(Expand(g));
    TailOfAppend([d], ps);
    BodyFragsCons([d] + ps, sep);
    assert d != "**" by {
      if |d| > 0 {
        assert d[0] != '*';
      }
    }
    PieceFragsLiteral(d, sep);
    LiteralAppend(d, [sep]);
    assert Literal([sep]) == [Lit(sep)];
  }

  /** The fragments of `**` then `/g`: any run, then those of `g`. */
  lemma AnyDirectoriesFragments(g: string, sep: char)
    requires g != [] && !IsSplitter(g[|g| - 1])
    ensures Fragments("**/" + g, sep) == [AnyRun] + Fragments(g, sep)
  {
    AnyDirectoriesSplit(g);
    var ps := Split(Expand(g));
    var subs := ["**"] + ps;
    TailOfAppend(["**"], ps);
    BodyFragsCons(subs, sep);
    assert subs[0] == "**";
    assert SegmentFrags(subs[0], sep) == [AnyRun];
    AppendNothing([AnyRun], BodyFrags(ps, sep));
  }

  /** The pieces of `**` then `/g`: `**`, then those of `g`. */
  lemma AnyDirectoriesSplit(g: string)
    requires g != [] && !IsSplitter(g[|g| - 1])
    ensures Split(Expand("**/" + g)) == ["**"] + Split(Expand(g)) && Split(Expand(g)) != []
  {
    var f := "**/" + g;
    assert f[|f| - 1] == g[|g| - 1];
    assert Expand(f) == f && Expand(g) == g;
    assert f == "**" + ['/'] + g;
    PiecesAround("**", '/', g);
    PiecesOfPlain("**");
    SplitWhole(f);
    SplitWhole(g);
  }


  /**
   * A leading `**` and separator: some prefix free of line terminators (any number of
   * directories, or none), then the rest of the filter matches what is left.
   */
  lemma AnyDirectoriesThen(g: string, sep: char, s: string)
    requires PlainGlob(g) && g != [] && !IsSplitter(g[|g| - 1]) && IsPlain(sep)
    ensures Matches(Compiled("**/" + g, sep), s) <==>
      exists k :: 0 <= k <= |s| && NoLineTerminator(s[..k]) && Matches(Compiled(g, sep), s[k..])
  {
    PlainGlobAppend("**/", g);
    AnyDirectoriesFragments(g, sep);
    CompiledMatches("**/" + g, sep, s);
    RunThen(None, Fragments(g, sep), s);
    forall k | 0 <= k <= |s| ensures Matches(Compiled(g, sep), s[k..]) <==> MatchFrags(Fragments(g, sep), s[k..]) {
      CompiledMatches(g, sep, s[k..]);
    }
  }

  /**
   * A directory `d` followed by a separator and `**` matches exactly the
   * strings that continue `d` with one separator and then any run free of
   * line terminators; `d` itself is not matched.
   */
  lemma DirectoryAndBelow(d: string, sep: char, s: string)
    requires PlainGlob(d) && IsPlain(sep) && NoWildcard(d)
    ensures var n := |Normalize(d, sep)| + 1;
      Matches(Compiled(d + "/**", sep), s) <==>
        n <= |s| && s[..n] == Normalize(d, sep) + [sep] && NoLineTerminator(s[n..])
  {
    var dn := Normalize(d, sep);
    DirectoryAndBelowFragments(d, sep);
    CompiledMatches(d + "/**", sep, s);
    LiteralThen(dn + [sep], [AnyRun], s);
    if |dn| + 1 <= |s| {
      AnyRunMatches(s[|dn| + 1..]);
    }
  }

  /** The pieces of `d/` then `**`: those of `d`, then `**`. */
  lemma DirectoryAndBelowSplit(d: string)
    requires PlainGlob(d) && NoWildcard(d)
    ensures PlainGlob(d + "/**")
    ensures Split(Expand(d + "/**")) == Pieces(d) + ["**"]
  {
    var f := d + "/**";
    assert Expand(f) == f;
    PlainGlobAppend(d, "/**");
    assert f == d + ['/'] + "**";
    PiecesAround(d, '/', "**");
    PiecesOfPlain("**");
    assert !NoSplitter(f) by {
      assert f[|d|] == '/';
    }
  }

  /**
   * The fragments of `d/` then `**`: the directory and a separator as literals,
   * then any run.
   */
  lemma DirectoryAndBelowFragments(d: string, sep: char)
    requires PlainGlob(d) && IsPlain(sep) && NoWildcard(d)
    ensures PlainGlob(d + "/**")
    ensures Fragments(d + "/**", sep) == Literal(Normalize(d, sep) + [sep]) + [AnyRun]
  {
    var dn := Normalize(d, sep);
    DirectoryAndBelowSplit(d);
    var ps := Pieces(d);
    PiecesNoWildcard(d);
    assert |ps[|ps| - 1]| > 0 ==> ps[|ps| - 1][0] != '*';
    assert ps[|ps| - 1] != "**";
    BodyFragsSnoc(ps, "**", sep);
    assert SegmentFrags("**", sep) == [AnyRun];
    BodyFragsLiteral(ps, sep);
    PiecesRoundTrip(d, sep);
    assert BodyFrags(ps, sep) == Literal(dn);
    LiteralAppend(dn, [sep]);
    assert Literal([sep]) == [Lit(sep)];
  }

  /** Joining two filters of the supported alphabet stays in it. */
  lemma PlainGlobAppend(a: string, b: string)
    requires PlainGlob(a) && PlainGlob(b)
    ensures PlainGlob(a + b)
  {
    forall i | 0 <= i < |a + b| ensures GlobChar((a + b)[i]) || IsSplitter((a + b)[i]) {
      if i >= |a| {
        assert (a + b)[i] == b[i - |a|];
      }
    }
  }

  /**
   * `**`, a separator and a wildcard-free tail `t`: every string that ends
   * in `t` with no line terminator before it. No separator is required in
   * front of `t`, so the filter for `file.json` in any directory also
   * accepts `xfile.json`.
   */
  lemma AnyPrefixThen(t: string, sep: char, s: string)
    requires PlainGlob(t) && IsPlain(sep) && NoWildcard(t)
    requires t != [] && !IsSplitter(t[|t| - 1])
    ensures var tn := Normalize(t, sep);
      Matches(Compiled("**/" + t, sep), s) <==>
        |tn| <= |s| && s[|s| - |tn|..] == tn && NoLineTerminator(s[..|s| - |tn|])
  {
    var f := "**/" + t;
    var tn := Normalize(t, sep);
    PlainGlobAppend("**/", t);
    AnyDirectoriesFragments(t, sep);
    LiteralFragments(t, sep);
    CompiledMatches(f, sep, s);
    assert Matches(Compiled(f, sep), s) <==> MatchFrags([Run(None)] + Literal(tn), s);
    RunThenLiteral(None, tn, s);
  }

  // ---------------------------------------------------------------------
  // Literal characters of a filter occur in every path it matches.

  /** Where a non-splitter character of a string lands among its pieces. */
  lemma {:induction false} PiecesCover(x: string, c: char) returns (i: nat, j: nat)
    requires c in x && !IsSplitter(c)
    ensures i < |Pieces(x)| && j < |Pieces(x)[i]| && Pieces(x)[i][j] == c
  {
    var rest := Pieces(x[1..]);
    if x[0] == c {
      i, j := 0, 0;
    } else {
      assert c in x[1..] by {
        var k :| 0 <= k < |x| && x[k] == c;
        assert x[1..][k - 1] == c;
      }
      var i', j' := PiecesCover(x[1..], c);
      if IsSplitter(x[0]) {
        i, j := i' + 1, j';
      } else if i' == 0 {
        i, j := 0, j' + 1;
      } else {
        i, j := i', j';
        assert Pieces(x)[i] == rest[1..][i' - 1];
      }
    }
  }

  /** Where a non-wildcard character of a piece lands among the fragments of the join. */
  lemma {:induction false} BodyFragsHasLit(ps: seq<string>, i: nat, j: nat, sep: char) returns (k: nat)
    requires i < |ps| && j < |ps[i]| && ps[i][j] != '*' && ps[i][j] != '?'
    ensures k < |BodyFrags(ps, sep)| && BodyFrags(ps, sep)[k] == Lit(ps[i][j])
  {
    var head := SegmentFrags(ps[0], sep) + (if |ps| > 1 && ps[0] != "**" then [Lit(sep)] else []);
    assert BodyFrags(ps, sep) == head + BodyFrags(ps[1..], sep);
    if i == 0 {
      assert ps[0] != "**";
      PieceFragsEach(ps[0], sep);
      k := j;
      assert head[k] == CharFrag(ps[0][j], sep);
    } else {
      var k' := BodyFragsHasLit(ps[1..], i - 1, j, sep);
      k := |head| + k';
    }
  }

  /**
   * Every character of a filter other than a wildcard or a splitter occurs
   * in every string the compiled filter matches.
   */
  lemma FilterCharsOccur(f: string, sep: char, s: string, c: char)
    requires PlainGlob(f) && IsPlain(sep)
    requires c in f && c != '*' && c != '?' && !IsSplitter(c)
    ensures Matches(Compiled(f, sep), s) ==> c in s
  {
    var x := Expand(f);
    assert c in x by {
      var k :| 0 <= k < |f| && f[k] == c;
      assert x[k] == c;
    }
    var i, j;
    if NoSplitter(x) {
      var k :| 0 <= k < |x| && x[k] == c;
      i, j := 0, k;
    } else {
      i, j := PiecesCover(x, c);
    }
    assert i < |Split(x)| && j < |Split(x)[i]| && Split(x)[i][j] == c;
    var k := BodyFragsHasLit(Split(x), i, j, sep);
    CompiledMatches(f, sep, s);
    if Matches(Compiled(f, sep), s) {
      LitAppears(Fragments(f, sep), s, k);
    }
  }
}
