/**
 * The part of java.util.regex that compiled watch filters use, and what a
 * whole-string match (`Matcher.matches()`) of such a pattern accepts.
 *
 * A compiled filter is built from five fragments only: a literal character,
 * the escape `\.`, the wildcard `.`, the lazy run `[^c]*?` and the lazy run
 * `.*?`. Under `matches()` laziness does not change which strings match, so
 * a run is read as "any number of admitted characters".
 */
module Regex {
  import opened Wrappers

  /** Java's `.` does not match a line terminator (no DOTALL flag is set). */
  predicate IsLineTerminator(c: char) {
    c == '\n' || c == '\r' || c == '\U{0085}' || c == '\U{2028}' || c == '\U{2029}'
  }

  /** A character that stands for itself in a Java regex, inside or outside a class. */
  predicate IsPlain(c: char) {
    c !in {'\\', '^', '$', '.', '|', '?', '*', '+', '(', ')', '[', ']', '{', '}'}
  }

  /** One fragment of a compiled filter. */
  datatype Frag =
    | Lit(c: char)         // the character itself; a '.' is written `\.`
    | AnyChar              // `.`
    | RunWithout(c: char)  // `[^c]*?`
    | AnyRun               // `.*?`

  /** A fragment that `Render` writes in a form the Java regex engine reads back as that fragment. */
  predicate Fits(f: Frag) {
    match f
    case Lit(c) => c == '.' || IsPlain(c)
    case RunWithout(c) => IsPlain(c)
    case _ => true
  }

  predicate Renderable(fs: seq<Frag>) {
    forall i :: 0 <= i < |fs| ==> Fits(fs[i])
  }

  function RenderOne(f: Frag): string {
    match f
    case Lit(c) => if c == '.' then "\\." else [c]
    case AnyChar => "."
    case RunWithout(c) => "[^" + [c] + "]*?"
    case AnyRun => ".*?"
  }

  /** The regex text of a fragment sequence. */
  function Render(fs: seq<Frag>): string {
    if fs == [] then "" else RenderOne(fs[0]) + Render(fs[1..])
  }

  /** Whether a character may appear in a run: `.*?` admits all but line terminators, `[^x]*?` all but x. */
  predicate Admits(excluded: Option<char>, c: char) {
    match excluded
    case None => !IsLineTerminator(c)
    case Some(x) => c != x
  }

  /**
   * The regex engine on the pattern text: does pattern body `p` (without
   * its `^` and `$`) match all of `s`? Text outside the five fragments is
   * read as literal characters, which is what Java does for plain characters.
   */
  predicate Body(p: string, s: string)
    decreases |p|, 0, 0
  {
    if p == [] then s == []
    else if |p| >= 3 && p[0] == '.' && p[1] == '*' && p[2] == '?' then Star(p[3..], s, None)
    else if |p| >= 6 && p[0] == '[' && p[1] == '^' && p[3] == ']' && p[4] == '*' && p[5] == '?' then
      Star(p[6..], s, Some(p[2]))
    else if |p| >= 2 && p[0] == '\\' then s != [] && s[0] == p[1] && Body(p[2..], s[1..])
    else if p[0] == '.' then s != [] && !IsLineTerminator(s[0]) && Body(p[1..], s[1..])
    else s != [] && s[0] == p[0] && Body(p[1..], s[1..])
  }

  /** A run of admitted characters of any length, followed by a match of `q`. */
  predicate Star(q: string, s: string, excluded: Option<char>)
    decreases |q|, 1, |s|
  {
    Body(q, s) || (s != [] && Admits(excluded, s[0]) && Star(q, s[1..], excluded))
  }

  /** `Pattern.compile(re).matcher(s).matches()` for an anchored pattern `^...$`. */
  predicate Matches(re: string, s: string) {
    |re| >= 2 && re[0] == '^' && re[|re| - 1] == '$' && Body(re[1..|re| - 1], s)
  }

  /** What a fragment sequence matches, read fragment by fragment. */
  predicate MatchFrags(fs: seq<Frag>, s: string)
    decreases |fs|, |s|
  {
    if fs == [] then s == []
    else match fs[0]
      case Lit(c) => s != [] && s[0] == c && MatchFrags(fs[1..], s[1..])
      case AnyChar => s != [] && !IsLineTerminator(s[0]) && MatchFrags(fs[1..], s[1..])
      case RunWithout(c) => MatchFrags(fs[1..], s) || (s != [] && s[0] != c && MatchFrags(fs, s[1..]))
      case AnyRun => MatchFrags(fs[1..], s) || (s != [] && !IsLineTerminator(s[0]) && MatchFrags(fs, s[1..]))
  }

  /** The text of a renderable fragment sequence never starts with `*` or `?`. */
  lemma RenderHead(fs: seq<Frag>)
    requires Renderable(fs)
    ensures Render(fs) != [] ==> Render(fs)[0] != '*' && Render(fs)[0] != '?'
  {
    if fs != [] {
      assert Fits(fs[0]);
    }
  }

  lemma {:induction false} RenderSplit(fs: seq<Frag>)
    requires fs != []
    ensures Render(fs) == RenderOne(fs[0]) + Render(fs[1..])
  {
  }

  /** The regex engine reads the text of renderable fragments back as those fragments. */
  lemma {:induction false} RenderedMatches(fs: seq<Frag>, s: string)
    requires Renderable(fs)
    ensures Body(Render(fs), s) <==> MatchFrags(fs, s)
    decreases |fs|, 1, 0
  {
    if fs == [] {
      return;
    }
    var rest := fs[1..];
    assert Renderable(rest) by {
      forall i | 0 <= i < |rest| ensures Fits(rest[i]) { assert rest[i] == fs[i + 1]; }
    }
    var r := Render(rest);
    assert Fits(fs[0]);
    RenderHead(rest);
    match fs[0]
    case Lit(c) =>
      if s != [] {
        RenderedMatches(rest, s[1..]);
      }
      if c == '.' {
        assert Render(fs) == "\\." + r;
        assert ("\\." + r)[2..] == r;
      } else {
        assert Render(fs) == [c] + r;
        assert ([c] + r)[1..] == r;
      }
    case AnyChar =>
      if s != [] {
        RenderedMatches(rest, s[1..]);
      }
      assert Render(fs) == "." + r;
      assert ("." + r)[1..] == r;
    case RunWithout(c) =>
      assert Render(fs) == "[^" + [c] + "]*?" + r;
      assert ("[^" + [c] + "]*?" + r)[6..] == r;
      RunMatches(fs, rest, s, Some(c));
    case AnyRun =>
      assert Render(fs) == ".*?" + r;
      assert (".*?" + r)[3..] == r;
      RunMatches(fs, rest, s, None);
  }

  /** A run fragment followed by `rest`: `Star` on the text agrees with `MatchFrags` on the fragments. */
  lemma {:induction false} RunMatches(fs: seq<Frag>, rest: seq<Frag>, s: string, excluded: Option<char>)
    requires fs != [] && rest == fs[1..] && Renderable(fs) && Renderable(rest)
    requires (fs[0].AnyRun? && excluded == None) || (fs[0].RunWithout? && excluded == Some(fs[0].c))
    ensures Star(Render(rest), s, excluded) <==> MatchFrags(fs, s)
    decreases |fs|, 0, |s|
  {
    RenderedMatches(rest, s);
    if s != [] {
      RunMatches(fs, rest, s[1..], excluded);
    }
  }

  // ---------------------------------------------------------------------
  // What the common fragment shapes accept.

  predicate NoLineTerminator(s: string) {
    Admitted(None, s)
  }

  /** A string as literal fragments. */
  function Literal(t: string): (fs: seq<Frag>)
    ensures |fs| == |t| && forall i :: 0 <= i < |t| ==> fs[i] == Lit(t[i])
  {
    if t == [] then [] else [Lit(t[0])] + Literal(t[1..])
  }

  lemma {:induction false} LiteralAppend(a: string, b: string)
    ensures Literal(a + b) == Literal(a) + Literal(b)
  {
  }

  /** Literal fragments match exactly their own characters, then the rest matches what is left. */
  lemma {:induction false} LiteralThen(t: string, rest: seq<Frag>, s: string)
    ensures MatchFrags(Literal(t) + rest, s) <==> |t| <= |s| && s[..|t|] == t && MatchFrags(rest, s[|t|..])
  {
    if t == [] {
      assert Literal(t) + rest == rest;
      assert s[..0] == t && s[0..] == s;
    } else {
      var fs := Literal(t) + rest;
      assert fs[0] == Lit(t[0]);
      assert fs[1..] == Literal(t[1..]) + rest;
      if s != [] {
        LiteralThen(t[1..], rest, s[1..]);
        if |t| <= |s| {
          assert s[1..][|t| - 1..] == s[|t|..];
          assert s[..|t|] == t <==> s[0] == t[0] && s[1..][..|t| - 1] == t[1..] by {
            if s[..|t|] == t {
              assert s[0] == t[0];
              assert s[1..][..|t| - 1] == t[1..];
            }
            if s[0] == t[0] && s[1..][..|t| - 1] == t[1..] {
              assert s[..|t|] == [s[0]] + s[1..][..|t| - 1];
            }
          }
        }
      }
    }
  }

  /** A literal matches exactly itself. */
  lemma LiteralMatchesItself(t: string, s: string)
    ensures MatchFrags(Literal(t), s) <==> s == t
  {
    LiteralThen(t, [], s);
    assert Literal(t) + [] == Literal(t);
  }

  /** The run fragment whose characters `excluded` admits: `.*?` or `[^c]*?`. */
  function Run(excluded: Option<char>): Frag {
    match excluded
    case None => AnyRun
    case Some(c) => RunWithout(c)
  }

  predicate Admitted(excluded: Option<char>, u: string) {
    forall i :: 0 <= i < |u| ==> Admits(excluded, u[i])
  }

  /** A run followed by `rest`: some admitted prefix, then `rest` matches what is left. */
  lemma {:induction false} RunThen(excluded: Option<char>, rest: seq<Frag>, s: string)
    ensures MatchFrags([Run(excluded)] + rest, s) <==>
      exists k :: 0 <= k <= |s| && Admitted(excluded, s[..k]) && MatchFrags(rest, s[k..])
    decreases |s|
  {
    RunUnfold(excluded, rest, s);
    if s == [] {
      assert s[..0] == [] && s[0..] == s;
    } else {
      RunThen(excluded, rest, s[1..]);
      RunThenStep(excluded, rest, s, s[1..]);
    }
  }

  /** A run either ends here, or takes one admitted character and goes on. */
  lemma RunUnfold(excluded: Option<char>, rest: seq<Frag>, s: string)
    ensures MatchFrags([Run(excluded)] + rest, s) <==>
      MatchFrags(rest, s) || (s != [] && Admits(excluded, s[0]) && MatchFrags([Run(excluded)] + rest, s[1..]))
  {
    var fs := [Run(excluded)] + rest;
    assert fs[1..] == rest;
  }

  /** The inductive step of `RunThen`, from the string without its first character. */
  lemma RunThenStep(excluded: Option<char>, rest: seq<Frag>, s: string, t: string)
    requires s != [] && t == s[1..]
    requires MatchFrags([Run(excluded)] + rest, t) <==>
      exists k :: 0 <= k <= |t| && Admitted(excluded, t[..k]) && MatchFrags(rest, t[k..])
    requires MatchFrags([Run(excluded)] + rest, s) <==>
      MatchFrags(rest, s) || (Admits(excluded, s[0]) && MatchFrags([Run(excluded)] + rest, t))
    ensures MatchFrags([Run(excluded)] + rest, s) <==>
      exists k :: 0 <= k <= |s| && Admitted(excluded, s[..k]) && MatchFrags(rest, s[k..])
  {
    if MatchFrags([Run(excluded)] + rest, s) {
      if MatchFrags(rest, s) {
        assert s[..0] == [] && s[0..] == s;
      } else {
        var k :| 0 <= k <= |t| && Admitted(excluded, t[..k]) && MatchFrags(rest, t[k..]);
        RunShift(excluded, rest, s, t, k);
      }
    }
    if exists k :: 0 <= k <= |s| && Admitted(excluded, s[..k]) && MatchFrags(rest, s[k..]) {
      var k :| 0 <= k <= |s| && Admitted(excluded, s[..k]) && MatchFrags(rest, s[k..]);
      if k == 0 {
        assert s[0..] == s;
      } else {
        RunUnshift(excluded, rest, s, t, k);
      }
    }
  }

  /** An admitted first character joins the run that follows it. */
  lemma RunShift(excluded: Option<char>, rest: seq<Frag>, s: string, t: string, k: nat)
    requires s != [] && t == s[1..] && k <= |t|
    requires Admits(excluded, s[0]) && Admitted(excluded, t[..k]) && MatchFrags(rest, t[k..])
    ensures Admitted(excluded, s[..k + 1]) && MatchFrags(rest, s[k + 1..])
  {
    assert s[..k + 1] == [s[0]] + t[..k] && s[k + 1..] == t[k..];
  }

  /** A non-empty run gives up its first character. */
  lemma RunUnshift(excluded: Option<char>, rest: seq<Frag>, s: string, t: string, k: nat)
    requires 0 < k <= |s| && t == s[1..]
    requires Admitted(excluded, s[..k]) && MatchFrags(rest, s[k..])
    ensures Admits(excluded, s[0]) && Admitted(excluded, t[..k - 1]) && MatchFrags(rest, t[k - 1..])
  {
    assert s[..k][0] == s[0];
    assert t[k - 1..] == s[k..];
    var u, v := t[..k - 1], s[..k];
    forall i | 0 <= i < |u| ensures Admits(excluded, u[i]) {
      assert u[i] == v[i + 1];
    }
  }

  /** A run followed by the literal `t`: the string ends in `t` and the run admits everything before it. */
  lemma RunThenLiteral(excluded: Option<char>, t: string, s: string)
    ensures MatchFrags([Run(excluded)] + Literal(t), s) <==>
      |t| <= |s| && s[|s| - |t|..] == t && Admitted(excluded, s[..|s| - |t|])
  {
    RunThen(excluded, Literal(t), s);
    LiteralAfterRun(excluded, t, s);
  }

  /** A split of `s` into an admitted run and the literal `t` exists exactly when `s` ends in `t`. */
  lemma LiteralAfterRun(excluded: Option<char>, t: string, s: string)
    ensures (exists k :: 0 <= k <= |s| && Admitted(excluded, s[..k]) && MatchFrags(Literal(t), s[k..])) <==>
      |t| <= |s| && s[|s| - |t|..] == t && Admitted(excluded, s[..|s| - |t|])
  {
    if exists k :: 0 <= k <= |s| && Admitted(excluded, s[..k]) && MatchFrags(Literal(t), s[k..]) {
      var k :| 0 <= k <= |s| && Admitted(excluded, s[..k]) && MatchFrags(Literal(t), s[k..]);
      LiteralMatched(t, s[k..]);
      assert |s[k..]| == |t|;
    }
    if |t| <= |s| && s[|s| - |t|..] == t && Admitted(excluded, s[..|s| - |t|]) {
      var k := |s| - |t|;
      LiteralMatchesItself(t, s[k..]);
    }
  }

  /** What the literal `t` matches is `t`. */
  lemma LiteralMatched(t: string, u: string)
    requires MatchFrags(Literal(t), u)
    ensures u == t
  {
    LiteralMatchesItself(t, u);
  }

  /** `.*?` alone matches exactly the strings without line terminators. */
  lemma AnyRunMatches(s: string)
    ensures MatchFrags([AnyRun], s) <==> NoLineTerminator(s)
  {
    RunThenLiteral(None, "", s);
    assert [AnyRun] + Literal("") == [AnyRun];
    assert s[..|s|] == s;
  }

  /** `[^c]*?` alone matches exactly the strings without `c`. */
  lemma {:induction false} RunWithoutMatches(c: char, s: string)
    ensures MatchFrags([RunWithout(c)], s) <==> c !in s
  {
    assert [RunWithout(c)][1..] == [];
    if s != [] {
      RunWithoutMatches(c, s[1..]);
      assert s == [s[0]] + s[1..];
    }
  }

  /**
   * The same reading as `MatchFrags`, by position: fragments from index `i`
   * against the characters from index `k`.
   */
  predicate MatchFrom(fs: seq<Frag>, s: string, i: nat, k: nat)
    requires i <= |fs| && k <= |s|
    decreases |fs| - i, |s| - k
  {
    if i == |fs| then k == |s|
    else match fs[i]
      case Lit(c) => k < |s| && s[k] == c && MatchFrom(fs, s, i + 1, k + 1)
      case AnyChar => k < |s| && !IsLineTerminator(s[k]) && MatchFrom(fs, s, i + 1, k + 1)
      case RunWithout(c) => MatchFrom(fs, s, i + 1, k) || (k < |s| && s[k] != c && MatchFrom(fs, s, i, k + 1))
      case AnyRun => MatchFrom(fs, s, i + 1, k) || (k < |s| && !IsLineTerminator(s[k]) && MatchFrom(fs, s, i, k + 1))
  }

  lemma {:induction false} MatchFromSlices(fs: seq<Frag>, s: string, i: nat, k: nat)
    requires i <= |fs| && k <= |s|
    ensures MatchFrom(fs, s, i, k) <==> MatchFrags(fs[i..], s[k..])
    decreases |fs| - i, |s| - k
  {
    if i < |fs| {
      assert fs[i..][0] == fs[i] && fs[i..][1..] == fs[i + 1..];
      if k < |s| {
        assert s[k..][0] == s[k] && s[k..][1..] == s[k + 1..];
        MatchFromSlices(fs, s, i, k + 1);
        MatchFromSlices(fs, s, i + 1, k + 1);
      }
      MatchFromSlices(fs, s, i + 1, k);
    }
  }

  /** Every literal fragment's character occurs in any string the fragments match. */
  lemma {:induction false} LitAppears(fs: seq<Frag>, s: string, i: nat)
    requires MatchFrags(fs, s) && i < |fs| && fs[i].Lit?
    ensures fs[i].c in s
    decreases |fs|, |s|
  {
    match fs[0]
    case Lit(c) =>
      if i > 0 {
        LitAppears(fs[1..], s[1..], i - 1);
      }
    case AnyChar =>
      LitAppears(fs[1..], s[1..], i - 1);
    case RunWithout(c) =>
      if MatchFrags(fs[1..], s) {
        LitAppears(fs[1..], s, i - 1);
      } else {
        LitAppears(fs, s[1..], i);
      }
    case AnyRun =>
      if MatchFrags(fs[1..], s) {
        LitAppears(fs[1..], s, i - 1);
      } else {
        LitAppears(fs, s[1..], i);
      }
  }
}
