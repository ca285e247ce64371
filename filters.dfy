/**
 * The track decision of `DirectoryWatcher`: a path string is tracked when
 * it is included (the include list is empty, or some include pattern
 * matches all of it) and not excluded (no exclude pattern matches it).
 */
module Filters {
  import opened Regex

  /** Some compiled pattern matches the whole of `s`. */
  predicate AnyMatches(patterns: seq<string>, s: string) {
    exists i :: 0 <= i < |patterns| && Matches(patterns[i], s)
  }

  /** `shouldInclude`: an empty include list includes everything. */
  predicate Included(includes: seq<string>, s: string) {
    includes == [] || AnyMatches(includes, s)
  }

  /** `shouldExclude`: an empty exclude list excludes nothing. */
  predicate Excluded(excludes: seq<string>, s: string) {
    AnyMatches(excludes, s)
  }

  /** `shouldTrack`. */
  predicate Tracked(includes: seq<string>, excludes: seq<string>, s: string) {
    Included(includes, s) && !Excluded(excludes, s)
  }

  lemma AnyMatchesAppend(patterns: seq<string>, p: string, s: string)
    ensures AnyMatches(patterns + [p], s) <==> AnyMatches(patterns, s) || Matches(p, s)
  {
    var ps := patterns + [p];
    if AnyMatches(ps, s) {
      var i :| 0 <= i < |ps| && Matches(ps[i], s);
      if i < |patterns| {
        assert ps[i] == patterns[i];
      }
    }
    if AnyMatches(patterns, s) {
      var i :| 0 <= i < |patterns| && Matches(patterns[i], s);
      assert ps[i] == patterns[i];
    }
    if Matches(p, s) {
      assert ps[|patterns|] == p;
    }
  }

  /** With no filters at all, every path is tracked. */
  lemma NoFiltersTrackAll(s: string)
    ensures Tracked([], [], s)
  {
  }

  /** One more exclude takes away exactly the strings it matches. */
  lemma ExcludeNarrows(includes: seq<string>, excludes: seq<string>, p: string, s: string)
    ensures Tracked(includes, excludes + [p], s) <==> Tracked(includes, excludes, s) && !Matches(p, s)
  {
    AnyMatchesAppend(excludes, p, s);
  }

  /**
   * The first include restricts tracking to what it matches; every later
   * include adds what it matches (unless excluded).
   */
  lemma IncludeAdds(includes: seq<string>, excludes: seq<string>, p: string, s: string)
    ensures Tracked(includes + [p], excludes, s) <==>
      if includes == [] then Matches(p, s) && !Excluded(excludes, s)
      else Tracked(includes, excludes, s) || (Matches(p, s) && !Excluded(excludes, s))
  {
    AnyMatchesAppend(includes, p, s);
    if includes == [] {
      assert AnyMatches(includes, s) == false;
    }
  }

  /** A single include: exactly what its pattern matches is tracked. */
  lemma OneInclude(p: string, s: string)
    ensures Tracked([p], [], s) <==> Matches(p, s)
  {
    if Matches(p, s) {
      assert [p][0] == p;
    }
  }

  /** A single exclude: everything its pattern does not match is tracked. */
  lemma OneExclude(p: string, s: string)
    ensures Tracked([], [p], s) <==> !Matches(p, s)
  {
    if Matches(p, s) {
      assert [p][0] == p;
    }
  }
}
